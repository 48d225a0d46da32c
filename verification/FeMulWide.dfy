/**
 * The pipelined 5 x 51-bit multiplier modulo p (fe25519_mul_wide_core.v): nine product diagonals,
 * a fold by 19, two lazy carry passes, a pack of 51 bits per limb and one conditional subtraction.
 */
module FeMulWide {
  import opened Bits
  import opened Field

  const LIMBS: nat := 5
  const DIAGONALS: nat := 9
  const W: nat := 0x8_0000_0000_0000                          // 2^51
  const TWO_102: nat := 0x40_0000_0000_0000_0000_0000_0000    // width of a product register
  const TWO_108: nat := 0x1000_0000_0000_0000_0000_0000_0000  // width of coeff
  const TWO_120: nat := 0x100_0000_0000_0000_0000_0000_0000_0000  // width of red
  const ROOM: nat := 0x2_0000_0000_0000_0000_0000_0000_0000     // 2^113
  const TWO_58: nat := 0x400_0000_0000_0000

  // ----- what the datapath computes, without register widths -----

  /** The product lane i contributes to diagonal d. */
  function LaneProduct(a: seq<nat>, b: seq<nat>, i: nat, d: nat): nat
    requires |a| == |b| == LIMBS && i < LIMBS
  {
    if i <= d <= i + 4 then a[i] * b[d - i] else 0
  }

  function Diagonal(a: seq<nat>, b: seq<nat>, d: nat): nat
    requires |a| == |b| == LIMBS
  {
    LaneProduct(a, b, 0, d) + LaneProduct(a, b, 1, d) + LaneProduct(a, b, 2, d)
    + LaneProduct(a, b, 3, d) + LaneProduct(a, b, 4, d)
  }

  function Diagonals(a: seq<nat>, b: seq<nat>): (c: seq<nat>)
    requires |a| == |b| == LIMBS
    ensures |c| == DIAGONALS
  {
    seq(DIAGONALS, d requires 0 <= d < DIAGONALS => Diagonal(a, b, d))
  }

  function Times19(n: nat): nat {
    n * 16 + n * 2 + n
  }

  /** Diagonals 5 to 8 wrap around to limbs 0 to 3 with weight 19. */
  function FoldHigh(c: seq<nat>): (r: seq<nat>)
    requires |c| == DIAGONALS
    ensures |r| == LIMBS
  {
    [c[0] + Times19(c[5]), c[1] + Times19(c[6]), c[2] + Times19(c[7]), c[3] + Times19(c[8]), c[4]]
  }

  /** One carry cycle: mask limb i and push the rest into the next limb, from 4 back to 0 times 19. */
  function Carry(r: seq<nat>, i: nat): (s: seq<nat>)
    requires |r| == LIMBS && i < LIMBS
    ensures |s| == LIMBS
  {
    if i == 4 then r[4 := r[4] % W][0 := r[0] + Times19(r[4] / W)]
    else r[i := r[i] % W][i + 1 := r[i + 1] + r[i] / W]
  }

  function Pass(r: seq<nat>): (s: seq<nat>)
    requires |r| == LIMBS
    ensures |s| == LIMBS
  {
    Carry(Carry(Carry(Carry(Carry(r, 0), 1), 2), 3), 4)
  }

  function Normalised(a: Fe, b: Fe): (r: seq<nat>)
    ensures |r| == LIMBS
  {
    Pass(Pass(FoldHigh(Diagonals(Digits(W, a, LIMBS), Digits(W, b, LIMBS)))))
  }

  /** Limb 0 after the wrap of the second carry pass; packing keeps only its low 51 bits. */
  function SecondWrap(a: Fe, b: Fe): nat {
    Normalised(a, b)[0]
  }

  function Pack(r: seq<nat>): Fe
    requires |r| == LIMBS
  {
    r[0] % W + W * (r[1] % W + W * (r[2] % W + W * (r[3] % W + W * (r[4] % W))))
  }

  function Product(a: Fe, b: Fe): Fe {
    var candidate := Pack(Normalised(a, b));
    if candidate >= P then candidate - P else candidate
  }

  // ----- the value of the limbs through the stages -----

  function LimbValue(r: seq<nat>): nat
    requires |r| == LIMBS
  {
    r[0] + W * (r[1] + W * (r[2] + W * (r[3] + W * r[4])))
  }

  lemma DigitsValue(n: Fe)
    ensures LimbValue(Digits(W, n, LIMBS)) == n
  {
    var r := Digits(W, n, LIMBS);
    assert Pow(W, LIMBS) == TWO_255;
    ValueOfDigits(W, n, LIMBS);
    Horner5(r);
  }

  lemma Horner5(r: seq<nat>)
    requires |r| == LIMBS
    ensures Value(W, r) == LimbValue(r)
  {
    ValueCons(W, r[4], []);
    ValueCons(W, r[3], r[4..]);
    ValueCons(W, r[2], r[3..]);
    ValueCons(W, r[1], r[2..]);
    ValueCons(W, r[0], r[1..]);
    assert r[4..] == [r[4]] + [] && r[3..] == [r[3]] + r[4..] && r[2..] == [r[2]] + r[3..];
    assert r[1..] == [r[1]] + r[2..] && r == [r[0]] + r[1..];
  }

  lemma Schoolbook(a0: nat, a1: nat, a2: nat, a3: nat, a4: nat, b0: nat, b1: nat, b2: nat, b3: nat, b4: nat)
    ensures (a0 + W * (a1 + W * (a2 + W * (a3 + W * a4)))) * (b0 + W * (b1 + W * (b2 + W * (b3 + W * b4))))
         == a0 * b0 + W * ((a0 * b1 + a1 * b0) + W * ((a0 * b2 + a1 * b1 + a2 * b0)
          + W * ((a0 * b3 + a1 * b2 + a2 * b1 + a3 * b0)
          + W * ((a0 * b4 + a1 * b3 + a2 * b2 + a3 * b1 + a4 * b0)
          + W * ((a1 * b4 + a2 * b3 + a3 * b2 + a4 * b1)
          + W * ((a2 * b4 + a3 * b3 + a4 * b2)
          + W * ((a3 * b4 + a4 * b3) + W * (a4 * b4))))))))
  {
  }

  function HighValue(c: seq<nat>): nat
    requires |c| == DIAGONALS
  {
    c[5] + W * (c[6] + W * (c[7] + W * c[8]))
  }

  function DiagonalValue(c: seq<nat>): nat
    requires |c| == DIAGONALS
  {
    c[0] + W * (c[1] + W * (c[2] + W * (c[3] + W * (c[4] + W * HighValue(c)))))
  }

  lemma DiagonalTerms(x: seq<nat>, y: seq<nat>)
    requires |x| == |y| == LIMBS
    ensures var c := Diagonals(x, y);
      && c[0] == x[0] * y[0]
      && c[1] == x[0] * y[1] + x[1] * y[0]
      && c[2] == x[0] * y[2] + x[1] * y[1] + x[2] * y[0]
      && c[3] == x[0] * y[3] + x[1] * y[2] + x[2] * y[1] + x[3] * y[0]
      && c[4] == x[0] * y[4] + x[1] * y[3] + x[2] * y[2] + x[3] * y[1] + x[4] * y[0]
      && c[5] == x[1] * y[4] + x[2] * y[3] + x[3] * y[2] + x[4] * y[1]
      && c[6] == x[2] * y[4] + x[3] * y[3] + x[4] * y[2]
      && c[7] == x[3] * y[4] + x[4] * y[3]
      && c[8] == x[4] * y[4]
  {
  }

  lemma DiagonalsMultiply(x: seq<nat>, y: seq<nat>)
    requires |x| == |y| == LIMBS
    ensures DiagonalValue(Diagonals(x, y)) == LimbValue(x) * LimbValue(y)
  {
    hide Diagonals, Diagonal, LaneProduct;
    DiagonalTerms(x, y);
    Schoolbook(x[0], x[1], x[2], x[3], x[4], y[0], y[1], y[2], y[3], y[4]);
  }

  /** Folding the high diagonals subtracts a multiple of p. */
  lemma FoldValue(c: seq<nat>)
    requires |c| == DIAGONALS
    ensures DiagonalValue(c) == LimbValue(FoldHigh(c)) + P * HighValue(c)
  {
  }

  lemma ProductValue(a: Fe, b: Fe)
    ensures Congruent(LimbValue(FoldHigh(Diagonals(Digits(W, a, LIMBS), Digits(W, b, LIMBS)))), a * b)
  {
    hide LimbValue, DiagonalValue, HighValue, FoldHigh, Diagonals, Digits;
    var x, y := Digits(W, a, LIMBS), Digits(W, b, LIMBS);
    var c := Diagonals(x, y);
    DigitsValue(a);
    DigitsValue(b);
    DiagonalsMultiply(x, y);
    FoldValue(c);
    MultipleOfP(LimbValue(FoldHigh(c)), HighValue(c), a * b);
    hide Congruent;
    Symmetric(a * b, LimbValue(FoldHigh(c)));
  }

  lemma CarryValue(r: seq<nat>, i: nat)
    requires |r| == LIMBS && i < LIMBS
    ensures LimbValue(Carry(r, i)) == LimbValue(r) - (if i == 4 then P * (r[4] / W) else 0)
  {
  }

  lemma PassValue(r: seq<nat>)
    requires |r| == LIMBS
    ensures Congruent(LimbValue(Pass(r)), LimbValue(r))
  {
    hide Carry, LimbValue;
    var r1 := Carry(r, 0);
    var r2 := Carry(r1, 1);
    var r3 := Carry(r2, 2);
    var r4 := Carry(r3, 3);
    CarryValue(r, 0);
    CarryValue(r1, 1);
    CarryValue(r2, 2);
    CarryValue(r3, 3);
    CarryValue(r4, 4);
    MultipleOfP(LimbValue(Carry(r4, 4)), r4[4] / W, LimbValue(r));
    Symmetric(LimbValue(r), LimbValue(Carry(r4, 4)));
  }

  // ----- bounds -----

  ghost predicate FoldBounds(r: seq<nat>) {
    && |r| == LIMBS
    && r[0] <= 77 * (W - 1) * (W - 1) && r[1] <= 59 * (W - 1) * (W - 1) && r[2] <= 41 * (W - 1) * (W - 1)
    && r[3] <= 23 * (W - 1) * (W - 1) && r[4] <= 5 * (W - 1) * (W - 1)
  }

  lemma DiagonalBounds(a: seq<nat>, b: seq<nat>, d: nat)
    requires |a| == |b| == LIMBS && Below(a, W) && Below(b, W) && d < DIAGONALS
    ensures forall i :: 0 <= i < LIMBS ==> LaneProduct(a, b, i, d) <= (W - 1) * (W - 1) < TWO_102
    ensures Diagonal(a, b, d) <= (if d <= 4 then d + 1 else 9 - d) * ((W - 1) * (W - 1)) < TWO_108
  {
    forall i | 0 <= i < LIMBS
      ensures LaneProduct(a, b, i, d) <= (W - 1) * (W - 1)
    {
      if i <= d <= i + 4 {
        MulLe(a[i], b[d - i], W - 1);
        MulLe(W - 1, a[i], W - 1);
      }
    }
  }

  lemma FoldedBounds(a: seq<nat>, b: seq<nat>)
    requires |a| == |b| == LIMBS && Below(a, W) && Below(b, W)
    ensures FoldBounds(FoldHigh(Diagonals(a, b)))
  {
    hide Diagonal, LaneProduct;
    DiagonalBounds(a, b, 0);
    DiagonalBounds(a, b, 1);
    DiagonalBounds(a, b, 2);
    DiagonalBounds(a, b, 3);
    DiagonalBounds(a, b, 4);
    DiagonalBounds(a, b, 5);
    DiagonalBounds(a, b, 6);
    DiagonalBounds(a, b, 7);
    DiagonalBounds(a, b, 8);
  }

  /** A pass written out: t is each limb with the carry of the one below added. */
  lemma PassLimbs(r: seq<nat>, t1: nat, t2: nat, t3: nat, t4: nat)
    requires |r| == LIMBS
    requires t1 == r[1] + r[0] / W && t2 == r[2] + t1 / W && t3 == r[3] + t2 / W && t4 == r[4] + t3 / W
    ensures Pass(r) == [r[0] % W + Times19(t4 / W), t1 % W, t2 % W, t3 % W, t4 % W]
  {
  }

  ghost predicate FirstPassBounds(r: seq<nat>) {
    |r| == LIMBS && r[0] < 115 * W && r[1] < W && r[2] < W && r[3] < W && r[4] < W
  }

  /** After the first pass only limb 0 can exceed 51 bits. */
  lemma FirstPass(r: seq<nat>)
    requires FoldBounds(r)
    ensures FirstPassBounds(Pass(r))
  {
    hide Pass;
    var t1 := r[1] + r[0] / W;
    var t2 := r[2] + t1 / W;
    var t3 := r[3] + t2 / W;
    var t4 := r[4] + t3 / W;
    PassLimbs(r, t1, t2, t3, t4);
  }

  /** The second pass leaves limb 0 over 51 bits only if the whole value wrapped round p. */
  lemma SecondPass(r: seq<nat>)
    requires FirstPassBounds(r)
    ensures SecondPassBounds(Pass(r))
  {
    hide Pass;
    var t1 := r[1] + r[0] / W;
    var t2 := r[2] + t1 / W;
    var t3 := r[3] + t2 / W;
    var t4 := r[4] + t3 / W;
    PassLimbs(r, t1, t2, t3, t4);
    Ripple(t1, r[1], r[0] / W);
    Ripple(t2, r[2], t1 / W);
    Ripple(t3, r[3], t2 / W);
    Ripple(t4, r[4], t3 / W);
  }

  lemma Ripple(t: nat, limb: nat, carry: nat)
    requires t == limb + carry && limb < W && carry < 115
    ensures t / W <= 1 && (t / W == 1 ==> t % W < carry)
  {
  }

  ghost predicate SecondPassBounds(r: seq<nat>) {
    && |r| == LIMBS
    && r[0] <= W + 18 && r[1] < W && r[2] < W && r[3] < W && r[4] < W
    && (r[0] >= W ==> r[1] < 114 && r[2] == r[3] == r[4] == 0)
  }

  lemma NormalisedFacts(a: Fe, b: Fe)
    ensures SecondPassBounds(Normalised(a, b)) && Congruent(LimbValue(Normalised(a, b)), a * b)
  {
    hide Pass, FoldHigh, Diagonals, Digits, LimbValue, Congruent, FoldBounds, FirstPassBounds, SecondPassBounds;
    var f := FoldHigh(Diagonals(Digits(W, a, LIMBS), Digits(W, b, LIMBS)));
    FoldedBounds(Digits(W, a, LIMBS), Digits(W, b, LIMBS));
    FirstPass(f);
    SecondPass(Pass(f));
    ProductValue(a, b);
    PassValue(f);
    PassValue(Pass(f));
    Transitive(LimbValue(Pass(Pass(f))), LimbValue(Pass(f)), LimbValue(f));
    Transitive(LimbValue(Pass(Pass(f))), LimbValue(f), a * b);
  }

  /**
   * The result is the exact product unless the second wrap carries limb 0 past 51 bits; then the
   * packed value has lost exactly 2^51, which can only happen to a product in a narrow range.
   */
  lemma ProductExactIff(a: Fe, b: Fe)
    ensures InField(Product(a, b))
    ensures Product(a, b) == ModP(a * b) <==> SecondWrap(a, b) < W
    ensures SecondWrap(a, b) >= W ==>
      Product(a, b) == ModP(a * b) - W && W <= ModP(a * b) < TWO_58 && ModP(a * b) % W <= 18
  {
    hide Normalised, LimbValue, Pack;
    NormalisedFacts(a, b);
    var r := Normalised(a, b);
    PackLoses(r);
    LimbRange(r);
    Residue(LimbValue(r), a * b);
  }

  lemma PackLoses(r: seq<nat>)
    requires SecondPassBounds(r)
    ensures Pack(r) == LimbValue(r) - (if r[0] >= W then W else 0)
  {
    assert r[1] % W == r[1] && r[2] % W == r[2] && r[3] % W == r[3] && r[4] % W == r[4];
    assert r[0] % W == r[0] - (if r[0] >= W then W else 0);
  }

  lemma LimbRange(r: seq<nat>)
    requires SecondPassBounds(r)
    ensures r[0] < W ==> LimbValue(r) < TWO_255
    ensures r[0] >= W ==>
      W <= LimbValue(r) < TWO_58 && LimbValue(r) % W <= 18
  {
  }

  lemma Residue(n: nat, product: int)
    requires Congruent(n, product)
    ensures n < P ==> n == ModP(product)
    ensures P <= n < TWO_255 ==> n - P == ModP(product)
  {
    SameResidue(n, product);
  }

  // ----- the condition before the carry passes -----

  /** The 19-folded sum of the diagonals, before any carry. */
  function FoldedValue(a: Fe, b: Fe): nat {
    LimbValue(FoldHigh(Diagonals(Digits(W, a, LIMBS), Digits(W, b, LIMBS))))
  }

  /** The value a carry pass leaves: what lies above 2^255 returns with weight 19. */
  function Wrapped(n: nat): nat {
    n % TWO_255 + 19 * (n / TWO_255)
  }

  /** Wrapping once leaves 2^255 or more, with low 51 bits that the second wrap of 19 overflows. */
  predicate Spills(n: nat) {
    Wrapped(n) >= TWO_255 && Wrapped(n) % W >= W - 19
  }

  /** Whether a product comes out right can be read off the folded sum, before the carry passes. */
  lemma ExactUnlessSpills(a: Fe, b: Fe)
    ensures Product(a, b) == ModP(a * b) <==> !Spills(FoldedValue(a, b))
  {
    hide Pass, FoldHigh, Diagonals, Digits, LimbValue, FoldBounds, FirstPassBounds, Product, Wrapped, ModP;
    var x, y := Digits(W, a, LIMBS), Digits(W, b, LIMBS);
    var f := FoldHigh(Diagonals(x, y));
    ProductExactIff(a, b);
    FoldedBounds(x, y);
    FirstPass(f);
    PassWraps(f);
    PassWraps(Pass(f));
    WrapsOnce(Pass(f));
  }

  lemma PassWraps(r: seq<nat>)
    requires |r| == LIMBS
    ensures Pass(r)[0] == LimbValue(r) % W + 19 * (LimbValue(r) / TWO_255)
    ensures LimbValue(Pass(r)) == Wrapped(LimbValue(r))
  {
    hide Pass;
    var t1 := r[1] + r[0] / W;
    var t2 := r[2] + t1 / W;
    var t3 := r[3] + t2 / W;
    var t4 := r[4] + t3 / W;
    PassLimbs(r, t1, t2, t3, t4);
    var low := r[0] % W + W * (t1 % W + W * (t2 % W + W * (t3 % W + W * (t4 % W))));
    DivModUnique(LimbValue(r), TWO_255, t4 / W, low);
    DivModUnique(LimbValue(r), W, r[0] / W + (r[1] + W * (r[2] + W * (r[3] + W * r[4]))), r[0] % W);
  }

  lemma WrapsOnce(r: seq<nat>)
    requires FirstPassBounds(r)
    ensures LimbValue(r) / TWO_255 <= 1
  {
    assert LimbValue(r) < 2 * TWO_255;
  }

  /** A product the datapath gets wrong: (p - 1)(p - 2^51) is 2^51 modulo p, but packs to 0. */
  lemma InexactExample()
    ensures ModP((P - 1) * (P - W)) == W
    ensures Product(P - 1, P - W) == 0
    ensures SecondWrap(P - 1, P - W) == W
  {
    hide FoldHigh, Diagonals, Digits, Pass, Product, SecondWrap;
    ExampleResidue();
    var x := [W - 20, W - 1, W - 1, W - 1, W - 1];
    var y := [W - 19, W - 2, W - 1, W - 1, W - 1];
    ExampleLimbs(x, y);
    ExampleDiagonals(x, y);
    ExamplePasses(FoldHigh(Diagonals(x, y)));
    ExamplePack(P - 1, P - W);
  }

  lemma ExampleResidue()
    ensures ModP((P - 1) * (P - W)) == W
  {
    MultipleOfP(W, P - W - 1, (P - 1) * (P - W));
  }

  lemma ExampleLimbs(x: seq<nat>, y: seq<nat>)
    requires x == [W - 20, W - 1, W - 1, W - 1, W - 1] && y == [W - 19, W - 2, W - 1, W - 1, W - 1]
    ensures Digits(W, P - 1, LIMBS) == x && Digits(W, P - W, LIMBS) == y
  {
    hide Digits;
    LimbsOf(P - 1, x);
    LimbsOf(P - W, y);
  }

  lemma ExampleDiagonals(x: seq<nat>, y: seq<nat>)
    requires x == [W - 20, W - 1, W - 1, W - 1, W - 1] && y == [W - 19, W - 2, W - 1, W - 1, W - 1]
    ensures FoldHigh(Diagonals(x, y)) == [390436384870294182783023713354203, 299165541653861787472451021570164, 207894698437429351629481683451983, 116623855220996915786512345333821, 25353012004564479943543007215659]
  {
    hide Diagonals, Diagonal, LaneProduct;
    DiagonalTerms(x, y);
  }

  lemma ExamplePasses(f: seq<nat>)
    requires f == [390436384870294182783023713354203, 299165541653861787472451021570164, 207894698437429351629481683451983, 116623855220996915786512345333821, 25353012004564479943543007215659]
    ensures Pass(Pass(f)) == [W, 0, 0, 0, 0]
  {
    hide Pass;
    PassLimbs(f, 299165541653861960861036675334050, 207894698437429484485670690881535, 116623855220997008110304706428927, 25353012004564531734938721976319);
    var g := Pass(f);
    assert g == [213920982300098541, 2251799813685154, 2251799813685247, 2251799813685247, 2251799813685247];
    PassLimbs(g, 2251799813685248, 2251799813685248, 2251799813685248, 2251799813685248);
  }

  lemma ExamplePack(a: Fe, b: Fe)
    requires Pass(Pass(FoldHigh(Diagonals(Digits(W, a, LIMBS), Digits(W, b, LIMBS))))) == [W, 0, 0, 0, 0]
    ensures SecondWrap(a, b) == W && Product(a, b) == 0
  {
    hide Pass, FoldHigh, Diagonals, Digits;
  }

  lemma LimbsOf(n: Fe, r: seq<nat>)
    requires |r| == LIMBS && Below(r, W) && LimbValue(r) == n
    ensures Digits(W, n, LIMBS) == r
  {
    Horner5(r);
    DigitsOfValue(W, r);
  }

  /** Room left in the 120-bit carry registers. */
  ghost predicate Fits(r: seq<nat>, n: nat) {
    |r| == LIMBS && forall k :: 0 <= k < LIMBS ==> r[k] < n * ROOM
  }

  lemma CarryFits(r: seq<nat>, i: nat, n: nat)
    requires i < LIMBS && 1 <= n <= 100 && Fits(r, n)
    ensures r[0] + Times19(r[4] / W) < TWO_120 && (i < 4 ==> r[i + 1] + r[i] / W < TWO_120)
    ensures Fits(Carry(r, i), n + 1)
  {
    SmallCarry(r[i], n);
    hide Times19;
    var s := Carry(r, i);
    assert i == 4 ==> s[0] == r[0] + Times19(r[4] / W) && s[1] == r[1] && s[2] == r[2] && s[3] == r[3];
  }

  lemma SmallCarry(x: nat, n: nat)
    requires x < n * ROOM && n <= 100
    ensures x % W <= x && x / W <= Times19(x / W) < ROOM
  {
  }

  lemma SmallFold(low: nat, high: nat)
    requires low < TWO_108 && high < TWO_108
    ensures (low + Times19(high)) % TWO_120 == low + Times19(high)
  {
  }

  lemma DiagonalsFit(a: seq<nat>, b: seq<nat>)
    requires |a| == |b| == LIMBS && Below(a, W) && Below(b, W)
    ensures forall d :: 0 <= d < DIAGONALS ==> Diagonals(a, b)[d] < TWO_108
    ensures Fits(FoldHigh(Diagonals(a, b)), 1)
  {
    hide Diagonal;
    FoldedBounds(a, b);
    forall d | 0 <= d < DIAGONALS
      ensures Diagonal(a, b, d) < TWO_108
    {
      DiagonalBounds(a, b, d);
    }
  }

  lemma LanesFit(a: seq<nat>, b: seq<nat>, d: nat)
    requires |a| == |b| == LIMBS && Below(a, W) && Below(b, W) && d < DIAGONALS
    ensures TWO_102 > 0
    ensures forall i :: 0 <= i < LIMBS ==> LaneProduct(a, b, i, d) % TWO_102 == LaneProduct(a, b, i, d)
  {
    DiagonalBounds(a, b, d);
    hide LaneProduct, W;
  }

  class MulWideCore {
    const aLimb: array<nat>
    const bLimb: array<nat>
    const coeff: array<nat>
    const red: array<nat>
    const product: array<nat>   // product0_reg .. product4_reg
    var diagIndex: nat
    var productDiagIndex: nat
    var productValid: bool
    var candidate: Fe
    var candidateMinusP: nat
    var candidateGeP: bool
    var result: Fe

    ghost predicate Valid() {
      && aLimb.Length == bLimb.Length == red.Length == product.Length == LIMBS && coeff.Length == DIAGONALS
      && aLimb != bLimb && aLimb != red && bLimb != red && product != red
      && aLimb != product && bLimb != product
      && coeff != aLimb && coeff != bLimb && coeff != red && coeff != product
    }

    ghost function Arrays(): set<object> {
      {aLimb, bLimb, coeff, red, product}
    }

    constructor ()
      ensures Valid() && fresh(Arrays())
    {
      aLimb, bLimb, red, product, coeff := new nat[5], new nat[5], new nat[5], new nat[5], new nat[9];
      diagIndex, productDiagIndex, productValid := 0, 0, false;
      candidate, candidateMinusP, candidateGeP, result := 0, 0, false, 0;
    }

    static method LoadLimbs(limbs: array<nat>, n: Fe)
      requires limbs.Length == LIMBS
      modifies limbs
      ensures limbs[..] == Digits(W, n, LIMBS)
    {
      for k := 0 to LIMBS
        invariant forall m :: 0 <= m < k ==> limbs[m] == Digits(W, n, LIMBS)[m]
      {
        DigitAt(W, n, LIMBS, k);
        limbs[k] := n / Pow(W, k) % W;
      }
    }

    ghost predicate Latched(d: nat)
      requires Valid()
      reads product, aLimb, bLimb
    {
      forall i :: 0 <= i < LIMBS ==> product[i] == LaneProduct(aLimb[..], bLimb[..], i, d)
    }

    /** The product registers take the five lane products of the current diagonal, in 102 bits. */
    method LatchProducts()
      requires Valid() && diagIndex < DIAGONALS && Below(aLimb[..], W) && Below(bLimb[..], W)
      modifies product
      ensures Latched(diagIndex)
    {
      hide LaneProduct, W, TWO_102;
      LanesFit(aLimb[..], bLimb[..], diagIndex);
      for i := 0 to LIMBS
        invariant forall m :: 0 <= m < i ==> product[m] == LaneProduct(aLimb[..], bLimb[..], m, diagIndex)
      {
        product[i] := LaneProduct(aLimb[..], bLimb[..], i, diagIndex) % TWO_102;
      }
    }

    /** The sum of the product registers, one cycle behind, goes to the coefficient it belongs to. */
    method StoreDiagonal()
      requires Valid() && productDiagIndex < DIAGONALS && Below(aLimb[..], W) && Below(bLimb[..], W)
      requires productValid ==> Latched(productDiagIndex)
      modifies coeff
      ensures forall d :: 0 <= d < DIAGONALS ==>
        coeff[d] == (if productValid && d == productDiagIndex then Diagonal(aLimb[..], bLimb[..], d) else old(coeff[d]))
    {
      if productValid {
        DiagonalBounds(aLimb[..], bLimb[..], productDiagIndex);
        coeff[productDiagIndex] := (product[0] + product[1] + product[2] + product[3] + product[4]) % TWO_108;
      }
    }

    /** ST_MUL and ST_MUL_FLUSH: the two-stage pipeline over the nine diagonals. */
    method MultiplyDiagonals()
      requires Valid() && diagIndex == 0 && !productValid && productDiagIndex == 0
      requires Below(aLimb[..], W) && Below(bLimb[..], W)
      modifies this`diagIndex, this`productDiagIndex, this`productValid, coeff, product
      ensures coeff[..] == Diagonals(aLimb[..], bLimb[..])
    {
      hide Diagonal, LaneProduct;
      var flush := false;
      while !flush
        invariant diagIndex <= 8 && productDiagIndex <= 8
        invariant productValid <==> diagIndex > 0 || flush
        invariant productValid ==> productDiagIndex == (if flush then 8 else diagIndex - 1)
        invariant productValid ==> Latched(productDiagIndex)
        invariant forall d :: 0 <= d < productDiagIndex ==> coeff[d] == Diagonal(aLimb[..], bLimb[..], d)
        decreases if flush then 0 else 1, 8 - diagIndex
      {
        StoreDiagonal();
        LatchProducts();
        productDiagIndex := diagIndex;
        productValid := true;
        if diagIndex == 8 {
          flush := true;
        } else {
          diagIndex := diagIndex + 1;
        }
      }
      StoreDiagonal();
      productValid := false;
    }

    /** ST_FOLD: registers of 120 bits. */
    method Fold()
      requires Valid()
      requires forall d :: 0 <= d < DIAGONALS ==> coeff[d] < TWO_108
      modifies red
      ensures red[..] == FoldHigh(coeff[..])
    {
      hide Times19;
      SmallFold(coeff[0], coeff[5]);
      SmallFold(coeff[1], coeff[6]);
      SmallFold(coeff[2], coeff[7]);
      SmallFold(coeff[3], coeff[8]);
      red[0] := (coeff[0] + Times19(coeff[5])) % TWO_120;
      red[1] := (coeff[1] + Times19(coeff[6])) % TWO_120;
      red[2] := (coeff[2] + Times19(coeff[7])) % TWO_120;
      red[3] := (coeff[3] + Times19(coeff[8])) % TWO_120;
      red[4] := coeff[4];
    }

    /** One cycle of ST_CARRY. */
    method CarryCycle(i: nat, ghost n: nat)
      requires Valid() && i < LIMBS && 1 <= n <= 100 && Fits(red[..], n)
      modifies red
      ensures red[..] == Carry(old(red[..]), i) && Fits(red[..], n + 1)
    {
      hide Times19;
      CarryFits(red[..], i, n);
      var carry := red[i] / W;
      if i == 4 {
        red[0] := (red[0] + Times19(carry)) % TWO_120;
      } else {
        red[i + 1] := (red[i + 1] + carry) % TWO_120;
      }
      red[i] := red[i] % W;
    }

    /** ST_CARRY: two passes over the five limbs. */
    method CarryPasses()
      requires Valid() && Fits(red[..], 1)
      modifies red
      ensures red[..] == Pass(Pass(old(red[..])))
    {
      hide Carry, Fits;
      CarryPass(1);
      CarryPass(6);
    }

    method CarryPass(ghost n: nat)
      requires Valid() && 1 <= n <= 90 && Fits(red[..], n)
      modifies red
      ensures red[..] == Pass(old(red[..])) && Fits(red[..], n + 5)
    {
      hide Carry, Fits;
      CarryCycle(0, n);
      CarryCycle(1, n + 1);
      CarryCycle(2, n + 2);
      CarryCycle(3, n + 3);
      CarryCycle(4, n + 4);
    }

    /** ST_PACK, ST_REDUCE and ST_FINISH. */
    method PackAndReduce()
      requires Valid()
      modifies this`candidate, this`candidateMinusP, this`candidateGeP, this`result
      ensures result == var n := Pack(red[..]); if n >= P then n - P else n
    {
      candidate := Pack(red[..]);
      candidateMinusP := (candidate - P) % TWO_256;
      candidateGeP := candidate >= P;
      result := if candidateGeP then candidateMinusP % TWO_255 else candidate;
    }

    /** One multiplication, from the start pulse to done. */
    method Multiply(a: Fe, b: Fe) returns (r: Fe)
      requires Valid()
      modifies this, Arrays()
      ensures r == result == Product(a, b)
    {
      hide Digits, Diagonals, FoldHigh, Pass, Pack, Fits;
      LoadLimbs(aLimb, a);
      LoadLimbs(bLimb, b);
      diagIndex, productDiagIndex, productValid := 0, 0, false;
      MultiplyDiagonals();
      DiagonalsFit(aLimb[..], bLimb[..]);
      Fold();
      CarryPasses();
      PackAndReduce();
      r := result;
    }
  }
}
