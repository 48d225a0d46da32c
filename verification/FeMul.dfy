/**
 * The 17 x 15-bit schoolbook multiplier modulo p (fe25519_mul_core.v): four products a cycle are
 * added into 40-bit accumulators, which are then normalised limb by limb, folded twice and reduced.
 */
module FeMul {
  import opened Bits
  import opened Field

  const LIMBS: nat := 17
  const PRODUCT_LIMBS: nat := 34
  const LIMB: nat := 0x8000          // 2^15
  const ACCUM: nat := 0x100_0000_0000  // 2^40
  const MAX_PRODUCT: nat := 0x7fff * 0x7fff

  lemma LimbPowers()
    ensures Pow(LIMB, LIMBS) == TWO_255
    ensures Pow(LIMB, 33) == TWO_255 * TWO_255 / LIMB
  {
    PowAdd(LIMB, 8, 8);
    PowAdd(LIMB, 16, 1);
    PowAdd(LIMB, 17, 16);
  }

  /** The sum of the products of the first `rows` rows and `columns` entries of the next one. */
  function Sum(a: seq<nat>, b: seq<nat>, rows: nat, columns: nat): nat
    requires rows <= |a| && columns <= |b| && (columns > 0 ==> rows < |a|)
    decreases rows, columns
  {
    if columns > 0 then
      Sum(a, b, rows, columns - 1) + Pow(LIMB, rows + columns - 1) * (a[rows] * b[columns - 1])
    else if rows > 0 then Sum(a, b, rows - 1, |b|)
    else 0
  }

  lemma {:induction false} SumOfRow(a: seq<nat>, b: seq<nat>, rows: nat, columns: nat)
    requires rows < |a| && columns <= |b|
    ensures Sum(a, b, rows, columns)
         == Sum(a, b, rows, 0) + Pow(LIMB, rows) * (a[rows] * Value(LIMB, b[..columns]))
  {
    if columns > 0 {
      var c := columns - 1;
      SumOfRow(a, b, rows, c);
      assert b[..columns] == b[..c] + [b[c]];
      ValueSnoc(LIMB, b[..c], b[c]);
      PowAdd(LIMB, rows, c);
      DistributeRow(a[rows], Pow(LIMB, rows), Value(LIMB, b[..c]), Pow(LIMB, c), b[c]);
    } else {
      assert b[..0] == [];
    }
  }

  lemma DistributeRow(a: nat, p: nat, v: nat, q: nat, b: nat)
    ensures p * (a * (v + q * b)) == p * (a * v) + (p * q) * (a * b)
  {
    assert a * (v + q * b) == a * v + q * (a * b);
  }

  /** All rows together multiply the two values. */
  lemma {:induction false} SumIsProduct(a: seq<nat>, b: seq<nat>, rows: nat)
    requires rows <= |a|
    ensures Sum(a, b, rows, 0) == Value(LIMB, a[..rows]) * Value(LIMB, b)
  {
    if rows > 0 {
      var r := rows - 1;
      SumIsProduct(a, b, r);
      SumOfRow(a, b, r, |b|);
      assert b[..|b|] == b;
      assert a[..rows] == a[..r] + [a[r]];
      ValueSnoc(LIMB, a[..r], a[r]);
      AddRow(Value(LIMB, a[..r]), Pow(LIMB, r), a[r], Value(LIMB, b));
    } else {
      assert a[..0] == [];
    }
  }

  lemma AddRow(v: nat, p: nat, a: nat, w: nat)
    ensures (v + p * a) * w == v * w + p * (a * w)
  {
  }

  /** A bound on the number of products accumulator k has received. */
  function ProductsIn(k: nat, rows: nat, columns: nat): nat {
    if rows <= k < rows + columns then rows + 1 else rows
  }

  ghost predicate Bounded(accum: seq<nat>, rows: nat, columns: nat) {
    forall k :: 0 <= k < |accum| ==> accum[k] <= ProductsIn(k, rows, columns) * MAX_PRODUCT
  }

  ghost predicate Partial(accum: seq<nat>, a: seq<nat>, b: seq<nat>, rows: nat, columns: nat) {
    && |accum| == PRODUCT_LIMBS && |a| == |b| == LIMBS
    && rows <= LIMBS && columns <= LIMBS && (rows == LIMBS ==> columns == 0)
    && Value(LIMB, accum) == Sum(a, b, rows, columns)
    && Bounded(accum, rows, columns)
  }

  lemma ProductBound(x: nat, y: nat)
    requires x < LIMB && y < LIMB
    ensures x * y <= MAX_PRODUCT
  {
    MulLe(x, y, 0x7fff);
    MulLe(0x7fff, x, 0x7fff);
  }

  lemma BoundStep(accum: seq<nat>, rows: nat, columns: nat, x: nat)
    requires rows + columns < |accum| && rows < LIMBS
    requires Bounded(accum, rows, columns) && x <= MAX_PRODUCT
    ensures accum[rows + columns] + x < ACCUM
    ensures Bounded(accum[rows + columns := accum[rows + columns] + x], rows, columns + 1)
  {
  }

  lemma SumColumn(a: seq<nat>, b: seq<nat>, i: nat, j: nat, x: nat)
    requires i < |a| && j < |b| && x == a[i] * b[j]
    ensures Sum(a, b, i, j + 1) == Sum(a, b, i, j) + Pow(LIMB, i + j) * x
  {
  }

  /** One more product keeps the sum and the bound, and cannot overflow 40 bits. */
  lemma AddProduct(accum: seq<nat>, a: seq<nat>, b: seq<nat>, i: nat, j: nat, x: nat)
    requires Partial(accum, a, b, i, j) && i < LIMBS && j < LIMBS
    requires Below(a, LIMB) && Below(b, LIMB) && x == a[i] * b[j]
    ensures accum[i + j] + x < ACCUM
    ensures Partial(accum[i + j := accum[i + j] + x], a, b, i, j + 1)
  {
    ProductBound(a[i], b[j]);
    BoundStep(accum, i, j, x);
    SumColumn(a, b, i, j, x);
    ValueUpdate(LIMB, accum, i + j, x);
  }

  lemma Start(accum: seq<nat>, a: seq<nat>, b: seq<nat>)
    requires |accum| == PRODUCT_LIMBS && |a| == |b| == LIMBS
    requires forall k :: 0 <= k < |accum| ==> accum[k] == 0
    ensures Partial(accum, a, b, 0, 0)
  {
    ValueZeros(LIMB, accum);
  }

  lemma RowDone(accum: seq<nat>, a: seq<nat>, b: seq<nat>, i: nat)
    requires Partial(accum, a, b, i, LIMBS)
    ensures Partial(accum, a, b, i + 1, 0)
  {
    hide Value, Pow;
    assert Sum(a, b, i + 1, 0) == Sum(a, b, i, LIMBS);
  }

  /** Adds the carry of the head of a limb string into the next limb, and drops the head. */
  function CarryInto(limbs: seq<nat>): seq<nat>
    requires |limbs| >= 2
  {
    limbs[1..][0 := limbs[1] + limbs[0] / LIMB]
  }

  /** Writes the low 15 bits of an accumulator into the (still clear) limb of the product. */
  function Emit(product: nat, index: nat, limb: nat): nat {
    product + Pow(LIMB, index) * (limb % LIMB)
  }

  /** `emitted` holds the low limbs of total; the rest is still in the accumulators. */
  ghost predicate Carried(rest: seq<nat>, emitted: nat, index: nat, total: nat) {
    && |rest| == PRODUCT_LIMBS - index && index < PRODUCT_LIMBS
    && emitted + Pow(LIMB, index) * Value(LIMB, rest) == total
    && rest[0] <= LIMBS * MAX_PRODUCT + ACCUM / LIMB
    && forall k :: 1 <= k < |rest| ==> rest[k] <= LIMBS * MAX_PRODUCT
  }

  lemma NormStep(rest: seq<nat>, emitted: nat, index: nat, total: nat)
    requires index < 33 && Carried(rest, emitted, index, total)
    ensures rest[1] + rest[0] / LIMB < ACCUM
    ensures Carried(CarryInto(rest), Emit(emitted, index, rest[0]), index + 1, total)
  {
    var low, carry := rest[0] % LIMB, rest[0] / LIMB;
    ValueUpdate(LIMB, rest[1..], 0, carry);
    var p, v := Pow(LIMB, index), Value(LIMB, rest[1..]);
    assert Pow(LIMB, index + 1) == LIMB * p;
    MoveCarry(p, low, carry, v);
  }

  lemma MoveCarry(p: nat, low: nat, carry: nat, v: nat)
    ensures p * (low + LIMB * carry + LIMB * v) == p * low + (LIMB * p) * (v + carry)
  {
  }

  /** The last limb has no carry, because the product fits in 510 bits. */
  lemma NormEnd(rest: seq<nat>, emitted: nat, total: nat)
    requires Carried(rest, emitted, 33, total) && total < TWO_255 * TWO_255
    ensures Emit(emitted, 33, rest[0]) == total
  {
    assert Value(LIMB, rest) == rest[0] by {
      ValueCons(LIMB, rest[0], []);
      assert rest == [rest[0]];
    }
    assert Pow(LIMB, 33) == TWO_255 * TWO_255 / LIMB by { LimbPowers(); }
    LastLimb(Pow(LIMB, 33), rest[0], emitted, total);
  }

  lemma LastLimb(p: nat, x: nat, emitted: nat, total: nat)
    requires p == TWO_255 * TWO_255 / LIMB && emitted + p * x == total < TWO_255 * TWO_255
    ensures x % LIMB == x
  {
    if x >= LIMB {
      MulLe(p, LIMB, x);
    }
  }

  lemma OperandValues(a: Fe, b: Fe)
    ensures Value(LIMB, Digits(LIMB, a, LIMBS)) == a && Value(LIMB, Digits(LIMB, b, LIMBS)) == b
  {
    LimbPowers();
    ValueOfDigits(LIMB, a, LIMBS);
    ValueOfDigits(LIMB, b, LIMBS);
  }

  lemma ProductWidth(a: Fe, b: Fe)
    ensures a * b < TWO_255 * TWO_255
  {
    MulLe(a, b, TWO_255);
    MulLe(TWO_255, a, TWO_255 - 1);
  }

  /** The bits above 255, times 16 + 2 + 1, added to the low 255 bits. */
  function Fold(n: nat): nat {
    var hi := n / TWO_255;
    n % TWO_255 + (hi * 16 + hi * 2 + hi)
  }

  /** Folding keeps the residue. */
  lemma FoldCongruent(n: nat)
    ensures ModP(Fold(n)) == ModP(n)
  {
    MultipleOfP(Fold(n), n / TWO_255, n);
  }

  /** After two folds the value is below 2p, so that one subtraction reduces it; no register overflows. */
  lemma FoldsSuffice(product: nat)
    requires product < TWO_255 * TWO_255
    ensures Fold(product) < 20 * TWO_255 < 16 * TWO_256
    ensures Fold(Fold(product)) < 2 * P < TWO_256
  {
    assert product / TWO_255 < TWO_255;
    SecondFold(Fold(product));
  }

  lemma SecondFold(fold1: nat)
    requires fold1 < 20 * TWO_255
    ensures Fold(fold1) < 2 * P
  {
    assert fold1 / TWO_255 < 20;
  }

  /** The accumulators of a finished multiplication hold the product. */
  lemma Accumulated(accum: seq<nat>, a: Fe, b: Fe)
    requires Partial(accum, Digits(LIMB, a, LIMBS), Digits(LIMB, b, LIMBS), LIMBS, 0)
    ensures Value(LIMB, accum) == a * b < TWO_255 * TWO_255
    ensures Bounded(accum, LIMBS, 0)
  {
    hide Sum, Value, Pow, Digits, TWO_255;
    OperandValues(a, b);
    var x := Digits(LIMB, a, LIMBS);
    SumIsProduct(x, Digits(LIMB, b, LIMBS), LIMBS);
    assert x[..LIMBS] == x;
    ProductWidth(a, b);
  }

  lemma ReduceOnce(n: nat)
    requires n < 2 * P
    ensures (if n >= P then (n - P) % TWO_256 else n) % TWO_255 == ModP(n)
  {
  }

  class MulCore {
    const aLimb: array<nat>
    const bLimb: array<nat>
    const accum: array<nat>
    var mulI: nat
    var mulJ: nat
    var normIndex: nat
    var productReg: nat   // 510 bits
    var fold1Reg: nat     // 260 bits
    var fold2Reg: nat     // 256 bits
    var fold2MinusPReg: nat
    var fold2GePReg: bool
    var result: nat

    ghost predicate Valid()
    {
      && aLimb.Length == bLimb.Length == LIMBS && accum.Length == PRODUCT_LIMBS
      && aLimb != bLimb && aLimb != accum && bLimb != accum
    }

    constructor ()
      ensures Valid() && fresh(aLimb) && fresh(bLimb) && fresh(accum)
    {
      aLimb, bLimb, accum := new nat[17], new nat[17], new nat[34];
      mulI, mulJ, normIndex, productReg := 0, 0, 0, 0;
      fold1Reg, fold2Reg, fold2MinusPReg, fold2GePReg, result := 0, 0, 0, false, 0;
    }

    static method LoadLimbs(limbs: array<nat>, n: Fe)
      requires limbs.Length == LIMBS
      modifies limbs
      ensures limbs[..] == Digits(LIMB, n, LIMBS)
    {
      for k := 0 to LIMBS
        invariant forall m :: 0 <= m < k ==> limbs[m] == Digits(LIMB, n, LIMBS)[m]
      {
        DigitAt(LIMB, n, LIMBS, k);
        limbs[k] := n / Pow(LIMB, k) % LIMB;
      }
    }

    method ClearAccumulators()
      requires Valid()
      modifies accum
      ensures forall k :: 0 <= k < PRODUCT_LIMBS ==> accum[k] == 0
    {
      for k := 0 to PRODUCT_LIMBS
        invariant forall m :: 0 <= m < k ==> accum[m] == 0
      {
        accum[k] := 0;
      }
    }

    /** ST_IDLE with start: split the operands into limbs and clear the accumulators. */
    method Load(a: Fe, b: Fe)
      requires Valid()
      modifies this, aLimb, bLimb, accum
      ensures aLimb[..] == Digits(LIMB, a, LIMBS) && bLimb[..] == Digits(LIMB, b, LIMBS)
      ensures forall k :: 0 <= k < PRODUCT_LIMBS ==> accum[k] == 0
      ensures mulI == 0 && mulJ == 0 && productReg == 0 && normIndex == 0
    {
      hide Digits, Below;
      ClearAccumulators();
      LoadLimbs(aLimb, a);
      LoadLimbs(bLimb, b);
      mulI, mulJ, normIndex, productReg := 0, 0, 0, 0;
      fold1Reg, fold2Reg, fold2MinusPReg, fold2GePReg, result := 0, 0, 0, false, 0;
    }

    /** One lane of ST_MUL: accumulate the product at column j of row mulI, in 40 bits. */
    method Lane(j: nat)
      requires Valid() && mulI < LIMBS && j < LIMBS
      requires Below(aLimb[..], LIMB) && Below(bLimb[..], LIMB)
      requires Partial(accum[..], aLimb[..], bLimb[..], mulI, j)
      modifies accum
      ensures Partial(accum[..], aLimb[..], bLimb[..], mulI, j + 1)
    {
      var product := aLimb[mulI] * bLimb[j];
      AddProduct(accum[..], aLimb[..], bLimb[..], mulI, j, product);
      ghost var before := accum[..];
      accum[mulI + j] := (accum[mulI + j] + product) % ACCUM;
      assert accum[..] == before[mulI + j := before[mulI + j] + product];
    }

    /** One cycle of ST_MUL: up to four lanes, the last group of a row having only one. */
    method LaneGroup()
      requires Valid() && mulI < LIMBS && mulJ <= 16 && mulJ % 4 == 0
      requires Below(aLimb[..], LIMB) && Below(bLimb[..], LIMB)
      requires Partial(accum[..], aLimb[..], bLimb[..], mulI, mulJ)
      modifies accum
      ensures Partial(accum[..], aLimb[..], bLimb[..], mulI, if mulJ >= 13 then LIMBS else mulJ + 4)
    {
      hide Partial;
      Lane(mulJ);
      if mulJ < 16 {
        Lane(mulJ + 1);
      }
      if mulJ <= 14 {
        Lane(mulJ + 2);
      }
      if mulJ <= 13 {
        Lane(mulJ + 3);
      }
    }

    /** ST_MUL: groups of four lanes over the 17 rows. */
    method Accumulate()
      requires Valid() && mulI == 0 && mulJ == 0
      requires Below(aLimb[..], LIMB) && Below(bLimb[..], LIMB)
      requires forall k :: 0 <= k < PRODUCT_LIMBS ==> accum[k] == 0
      modifies this`mulI, this`mulJ, accum
      ensures Partial(accum[..], aLimb[..], bLimb[..], LIMBS, 0)
    {
      hide Partial;
      Start(accum[..], aLimb[..], bLimb[..]);
      var norm := false;
      while !norm
        invariant mulI < LIMBS && mulJ <= 16 && mulJ % 4 == 0
        invariant if norm then Partial(accum[..], aLimb[..], bLimb[..], LIMBS, 0)
                  else Partial(accum[..], aLimb[..], bLimb[..], mulI, mulJ)
        decreases if norm then 0 else 1, LIMBS - mulI, LIMBS - mulJ
      {
        LaneGroup();
        if mulJ >= 13 {
          RowDone(accum[..], aLimb[..], bLimb[..], mulI);
          mulJ := 0;
          if mulI == 16 {
            norm := true;
          } else {
            mulI := mulI + 1;
          }
        } else {
          mulJ := mulJ + 4;
        }
      }
    }

    /** ST_NORM: emit 15 bits of each accumulator and carry the rest into the next. */
    method Normalise(ghost total: nat)
      requires Valid() && normIndex == 0 && productReg == 0
      requires Value(LIMB, accum[..]) == total < TWO_255 * TWO_255
      requires Bounded(accum[..], LIMBS, 0)
      modifies this`normIndex, this`productReg, accum
      ensures productReg == total
    {
      assert accum[0..] == accum[..];
      while normIndex < 33
        invariant normIndex <= 33
        invariant Carried(accum[normIndex..], productReg, normIndex, total)
      {
        Carry(total);
        normIndex := normIndex + 1;
      }
      NormEnd(accum[normIndex..], productReg, total);
      productReg := Emit(productReg, normIndex, accum[normIndex]);
    }

    /** One cycle of ST_NORM before the last. */
    method Carry(ghost total: nat)
      requires Valid() && normIndex < 33
      requires Carried(accum[normIndex..], productReg, normIndex, total)
      modifies this`productReg, accum
      ensures Carried(accum[normIndex + 1..], productReg, normIndex + 1, total)
    {
      ghost var before := accum[normIndex..];
      NormStep(before, productReg, normIndex, total);
      productReg := Emit(productReg, normIndex, accum[normIndex]);
      CarryLimb();
    }

    method CarryLimb()
      requires Valid() && normIndex < 33
      requires accum[normIndex + 1] + accum[normIndex] / LIMB < ACCUM
      modifies accum
      ensures accum[normIndex + 1..] == old(CarryInto(accum[normIndex..]))
    {
      accum[normIndex + 1] := (accum[normIndex + 1] + accum[normIndex] / LIMB) % ACCUM;
    }

    /** ST_FOLD_1 to ST_FINISH: two folds by 19 and one conditional subtraction. */
    method FoldAndReduce()
      requires productReg < TWO_255 * TWO_255
      modifies this`fold1Reg, this`fold2Reg, this`fold2MinusPReg, this`fold2GePReg, this`result
      ensures result == ModP(productReg)
    {
      hide Fold;
      FoldsSuffice(productReg);
      FoldCongruent(productReg);
      fold1Reg := Fold(productReg) % (16 * TWO_256);
      FoldCongruent(fold1Reg);
      fold2Reg := Fold(fold1Reg) % TWO_256;
      ReduceOnce(fold2Reg);
      fold2MinusPReg := (fold2Reg - P) % TWO_256;
      fold2GePReg := fold2Reg >= P;
      result := (if fold2GePReg then fold2MinusPReg else fold2Reg) % TWO_255;
    }

    /** One multiplication, from the start pulse to done. */
    method Multiply(a: Fe, b: Fe) returns (r: Fe)
      requires Valid()
      modifies this, aLimb, bLimb, accum
      ensures r == result == ModP(a * b)
    {
      hide Digits, Partial, Value, Bounded;
      Load(a, b);
      Accumulate();
      Accumulated(accum[..], a, b);
      Normalise(a * b);
      FoldAndReduce();
      r := result;
    }
  }
}
