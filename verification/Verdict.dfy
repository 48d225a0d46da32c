/**
 * What the verifier of ed25519_verify_engine.v is to decide: section 5.1.7 of RFC 8032 over any
 * reading of curve points in a commutative group, and the digit selections its joint loop makes.
 */
module Verdict {
  import opened Bits
  import opened Group
  import Curve
  import Decompress
  import FeAux
  import Field
  import ScalarReduce
  import ScalarWnaf
  import Sha512Hash
  import Sha512Stream

  const TWO_256: nat := ScalarWnaf.TWO_256
  const VERIFY_MODE_AGAVE_ZEBRA: nat := 1

  // ----- the curve as a group -----

  /** A reduced point on the curve with a usable z. */
  ghost predicate Good(p: Curve.Point) {
    Curve.Reduced(p) && Curve.OnCurve(p) && p.z != 0
  }

  /** The test of the engine. */
  predicate IsIdentity(p: Curve.Point) {
    p.x == 0 && p.t == 0 && p.y == p.z
  }

  /** The test passes exactly the points that are the identity, in whatever projective coordinates. */
  lemma IdentityTestIff(p: Curve.Point)
    requires Good(p)
    ensures IsIdentity(p) <==> p.t == 0 && Curve.SamePoint(p, Curve.Identity)
  {
    hide Curve.OnCurve, Field.Congruent;
    if IsIdentity(p) {
      Field.Reflexive(0);
      Field.Reflexive(p.y);
    }
    if Curve.SamePoint(p, Curve.Identity) {
      Field.Unique(p.x, 0);
      Field.Unique(p.y, p.z);
    }
  }

  /** A point plus its negative passes the test. */
  lemma NegativeCancels(p: Curve.Point)
    requires Sound(p)
    ensures IsIdentity(Curve.Add(p, Curve.Negate(p)))
  {
    hide Curve.Add, Curve.Negate, Curve.OnCurve, Curve.Reduced;
    Curve.AddNegateIsIdentity(p);
  }

  /** A reading of points as elements of a commutative group, with a base element. */
  datatype Model<!G> = Model(group: Group<G>, value: Curve.Point -> G, base: G)

  /**
   * The group law of the curve: the two sequences never run into z = 0, and compute sums and doubles;
   * negating x and t computes inverses; only the identity passes the identity test.
   */
  ghost predicate Interprets<G(!new)>(m: Model<G>) {
    && Commutative(m.group)
    && (forall p, q :: Good(p) && Good(q) ==> AddsWell(m, p, q))
    && (forall p :: Good(p) ==> ActsWell(m, p))
  }

  ghost predicate AddsWell<G>(m: Model<G>, p: Curve.Point, q: Curve.Point) {
    Curve.Add(p, q).z != 0 && m.value(Curve.Add(p, q)) == m.group.add(m.value(p), m.value(q))
  }

  ghost predicate ActsWell<G>(m: Model<G>, p: Curve.Point) {
    && Curve.Double(p).z != 0 && m.value(Curve.Double(p)) == Twice(m.group, m.value(p))
    && m.value(Curve.Negate(p)) == m.group.neg(m.value(p))
    && (IsIdentity(p) <==> m.value(p) == m.group.zero)
  }

  /** Entry j of the base-point table is j times the base point, for the entries that are selected. */
  ghost predicate TableHolds<G>(m: Model<G>, table: seq<Curve.Point>) {
    && |table| == 16
    && (forall j: nat :: j == 1 || j == 3 || j == 5 || j == 7 ==> Stands(m, table[j], Times(m.group, j, m.base)))
  }

  /** p is a good point whose value is x. */
  ghost predicate Stands<G>(m: Model<G>, p: Curve.Point, x: G) {
    Good(p) && m.value(p) == x
  }

  lemma StandsSum<G(!new)>(m: Model<G>, p: Curve.Point, x: G, q: Curve.Point, y: G)
    requires Interprets(m) && Stands(m, p, x) && Stands(m, q, y)
    ensures Stands(m, Curve.Add(p, q), m.group.add(x, y))
  {
    assert AddsWell(m, p, q);
    hide Curve.Add, Curve.Double, Curve.OnCurve, Curve.Reduced, Curve.Negate;
    Curve.AddOnCurve(p, q);
  }

  lemma StandsDouble<G(!new)>(m: Model<G>, p: Curve.Point, x: G)
    requires Interprets(m) && Stands(m, p, x)
    ensures Stands(m, Curve.Double(p), Twice(m.group, x))
  {
    assert ActsWell(m, p);
    hide Curve.Add, Curve.Double, Curve.OnCurve, Curve.Reduced, Curve.Negate;
    Curve.DoubleOnCurve(p);
  }

  lemma StandsNegate<G(!new)>(m: Model<G>, p: Curve.Point, x: G)
    requires Interprets(m) && Stands(m, p, x)
    ensures Stands(m, Curve.Negate(p), m.group.neg(x))
  {
    assert ActsWell(m, p);
    assert Curve.Negate(p).z == p.z;
    hide Curve.Add, Curve.Double, Curve.OnCurve, Curve.Reduced, Curve.Negate;
    Curve.NegateOnCurve(p);
  }

  lemma StandsIdentity<G(!new)>(m: Model<G>)
    requires Interprets(m)
    ensures Stands(m, Curve.Identity, m.group.zero)
  {
    Curve.IdentityOnCurve();
    assert Good(Curve.Identity) && IsIdentity(Curve.Identity);
    hide Curve.Add, Curve.Double, Curve.OnCurve, Curve.Reduced, Curve.Negate, Good;
    assert ActsWell(m, Curve.Identity);
  }

  lemma IdentityTest<G(!new)>(m: Model<G>, p: Curve.Point, x: G)
    requires Interprets(m) && Stands(m, p, x)
    ensures IsIdentity(p) <==> x == m.group.zero
  {
    assert ActsWell(m, p);
  }

  lemma DecodedIsGood(encoded: nat)
    requires Decompress.Decode(encoded).Some?
    ensures Good(Decompress.Decode(encoded).value)
  {
    Decompress.DecodedPoint(encoded);
    hide Curve.OnCurve, Curve.Reduced, Decompress.Decode;
  }

  // ----- what the engine decides -----

  /** canonicalize_encoded_point: y reduced once, the sign bit kept. */
  function Canonical(encoded: nat): nat {
    var y := encoded % Field.TWO_255;
    encoded / Field.TWO_255 % 2 * Field.TWO_255 + if y >= Field.P then y - Field.P else y
  }

  /** point_encoding_is_small_order. */
  predicate SmallOrder(encoded: nat) {
    var c := Canonical(encoded);
    || c == 0x0000000000000000000000000000000000000000000000000000000000000001
    || c == 0x7a03ac9277fdc74ec6cc392cfa53202a0f67100d760b3cba4fd84d3d706a17c7
    || c == 0x8000000000000000000000000000000000000000000000000000000000000000
    || c == 0x05fc536d880238b13933c6d305acdfd5f098eff289f4c345b027b2c28f95e826
    || c == 0x7fffffffffffffffffffffffffffffffffffffffffffffffffffffffffffffec
    || c == 0x85fc536d880238b13933c6d305acdfd5f098eff289f4c345b027b2c28f95e826
    || c == 0x0000000000000000000000000000000000000000000000000000000000000000
    || c == 0xfa03ac9277fdc74ec6cc392cfa53202a0f67100d760b3cba4fd84d3d706a17c7
  }

  /**
   * The list has the two points with x = 0, y = 1 and y = -1, under the sign bit 0 only, although both
   * decode under either: strict mode lets exactly the negative zeros through.
   */
  lemma ListMissesNegativeZeros(encoded: nat)
    requires encoded < TWO_256 && (FeAux.Load(encoded) == 1 || FeAux.Load(encoded) == Field.P - 1)
    ensures Decompress.Decode(encoded).Some?
    ensures SmallOrder(encoded) <==> Decompress.Sign(encoded) == 0
    ensures SmallOrder(encoded) <==> !Decompress.NegativeZero(encoded)
  {
    hide FeAux.Load, Decompress.U, Canonical, Decompress.Sign, Decompress.Decode;
    CanonicalIs(encoded);
    Decompress.SignIsBit(encoded);
    UnitSquares();
    UnitDecodes(encoded);
  }

  lemma UnitDecodes(encoded: nat)
    requires Decompress.U(FeAux.Load(encoded)) == 0
    ensures Decompress.Decode(encoded).Some?
  {
    FeAux.LoadReduces(encoded);
    Decompress.RootZeroIff(FeAux.Load(encoded));
    hide FeAux.Load, Decompress.U, Decompress.V, Decompress.Root, Decompress.WithSign, Decompress.PointFrom;
  }

  /** Canonical joins the sign bit and the loaded y. */
  lemma CanonicalIs(encoded: nat)
    ensures Canonical(encoded) == Decompress.Sign(encoded) * Field.TWO_255 + FeAux.Load(encoded)
  {
    FeAux.LoadSubtractsOnce(encoded);
    hide FeAux.Load, Field.P;
  }

  lemma UnitSquares()
    ensures Decompress.U(1) == 0 && Decompress.U(Field.P - 1) == 0
  {
    Curve.MulIs(1, 1);
    Curve.MulIs(Field.P - 1, Field.P - 1);
    hide Curve.Mul;
  }

  /** One signature check: encodings as 256-bit little-endian numbers, the message in word memory. */
  datatype Request = Request(pubkey: nat, sigR: nat, sigS: nat, mode: nat, memory: seq<nat>, length: nat)

  predicate Strict(q: Request) {
    q.mode != VERIFY_MODE_AGAVE_ZEBRA
  }

  function HashJob(q: Request): Sha512Stream.Job {
    Sha512Stream.Job(q.sigR, q.pubkey, q.memory, q.length)
  }

  /** SHA-512(R, A, M) as a little-endian number modulo the group order. */
  function Challenge(q: Request): nat
    requires q.length <= 4 * |q.memory|
  {
    var digest := Sha512Hash.DigestBytes(Sha512Hash.WordList(Sha512Hash.Hash(Sha512Stream.Input(HashJob(q)))));
    ScalarReduce.ModL(Value(256, digest))
  }

  /** What has to hold before any curve arithmetic matters. */
  predicate Admitted(q: Request, addrWidth: nat) {
    && q.sigS < ScalarReduce.L
    && (Strict(q) ==> !SmallOrder(q.pubkey) && !SmallOrder(q.sigR))
    && q.length <= Pow2(addrWidth)
  }

  /** s B - k A - R. */
  ghost function Equation<G>(m: Model<G>, s: int, k: int, a: G, r: G): G {
    m.group.add(Joint(m.group, s, m.base, k, a), m.group.neg(r))
  }

  /** e = 0, or 8 e = 0 in the cofactored mode. */
  ghost predicate Vanishes<G>(g: Group<G>, mode: nat, e: G) {
    (if mode == VERIFY_MODE_AGAVE_ZEBRA then Times(g, 8, e) else e) == g.zero
  }

  /** The verdict of section 5.1.7: strict without the cofactor, agave_zebra with it. */
  ghost predicate Accepts<G>(m: Model<G>, q: Request, addrWidth: nat)
    requires Pow2(addrWidth) <= 4 * |q.memory|
  {
    && Admitted(q, addrWidth)
    && Decompress.Decode(q.pubkey).Some? && Decompress.Decode(q.sigR).Some?
    && var a, r := m.value(Decompress.Decode(q.pubkey).value), m.value(Decompress.Decode(q.sigR).value);
    Vanishes(m.group, q.mode, Equation(m, q.sigS, Challenge(q), a, r))
  }

  lemma AcceptsWhen<G>(m: Model<G>, q: Request, addrWidth: nat)
    requires Pow2(addrWidth) <= 4 * |q.memory| && Admitted(q, addrWidth)
    requires Decompress.Decode(q.pubkey).Some? && Decompress.Decode(q.sigR).Some?
    ensures Accepts(m, q, addrWidth) <==>
      var a, r := m.value(Decompress.Decode(q.pubkey).value), m.value(Decompress.Decode(q.sigR).value);
      Vanishes(m.group, q.mode, Equation(m, q.sigS, Challenge(q), a, r))
  {
    hide Decompress.Decode, Challenge, Pow2, Vanishes, Equation;
  }

  /** What is accepted in a strict mode is accepted in every mode. */
  lemma StrictAccepts<G(!new)>(m: Model<G>, q: Request, addrWidth: nat, mode: nat)
    requires Commutative(m.group) && Pow2(addrWidth) <= 4 * |q.memory| && Accepts(m, q, addrWidth) && Strict(q)
    ensures Accepts(m, q.(mode := mode), addrWidth)
  {
    hide Decompress.Decode, Challenge, Pow2, Commutative, Times, Equation, SmallOrder, ScalarReduce.L;
    TimesOfZero(m.group, 8);
    SameChallenge(q, mode);
  }

  lemma SameChallenge(q: Request, mode: nat)
    requires q.length <= 4 * |q.memory|
    ensures Challenge(q.(mode := mode)) == Challenge(q)
  {
    assert HashJob(q.(mode := mode)) == HashJob(q);
    hide Value, Sha512Hash.Hash, Sha512Hash.DigestBytes, Sha512Stream.Input, ScalarReduce.ModL;
  }

  /** The digest register read by the reducer holds the digest bytes in order. */
  lemma DigestRegister(words: seq<bv64>)
    requires |words| == 8
    ensures ScalarReduce.BytesDown(Sha512Hash.Packed(words)) == Sha512Hash.DigestBytes(words)
  {
    var wide := Sha512Hash.Packed(words);
    hide Sha512Hash.Packed, Sha512Hash.DigestBytes, Digits, Sha512Hash.BigEndian;
    Sha512Hash.PackedBytes(words);
    Sha512Hash.BigEndianIsReversed(wide, 64);
    assert ScalarReduce.BytesDown(wide) == Sha512Hash.Reversed(Digits(256, wide, 64));
  }

  // ----- digit selection -----

  /** digit_abs on a four-bit two's complement digit. */
  function DigitAbs(digit: nat): nat
    requires digit < 16
  {
    if digit >= 8 then (15 - digit + 1) % 16 else digit
  }

  /** The operand of the A addition: k digits are subtracted, so a positive digit takes the negated point. */
  function SelectA(digit: nat, a: Curve.Point, a3: Curve.Point, a5: Curve.Point, a7: Curve.Point): Curve.Point
    requires digit < 16
  {
    var abs := DigitAbs(digit);
    if abs == 1 then (if digit >= 8 then a else Curve.Negate(a))
    else if abs == 3 then (if digit >= 8 then a3 else Curve.Negate(a3))
    else if abs == 5 then (if digit >= 8 then a5 else Curve.Negate(a5))
    else if abs == 7 then (if digit >= 8 then a7 else Curve.Negate(a7))
    else Curve.Identity
  }

  function SelectB(digit: nat, table: seq<Curve.Point>): Curve.Point
    requires digit < 16 && |table| == 16
  {
    var p := table[DigitAbs(digit)];
    if digit >= 8 then Curve.Negate(p) else p
  }

  /** The four registers hold A, 3A, 5A and 7A. */
  ghost predicate OddTable<G>(m: Model<G>, x: G, a: Curve.Point, a3: Curve.Point, a5: Curve.Point, a7: Curve.Point) {
    && Stands(m, a, Times(m.group, 1, x)) && Stands(m, a3, Times(m.group, 3, x))
    && Stands(m, a5, Times(m.group, 5, x)) && Stands(m, a7, Times(m.group, 7, x))
  }

  // ----- without any reading of the points -----

  /** A reduced point on the curve. */
  ghost predicate Sound(p: Curve.Point) {
    Curve.Reduced(p) && Curve.OnCurve(p)
  }

  /** The table entries that are selected lie on the curve. */
  ghost predicate SoundTable(table: seq<Curve.Point>) {
    |table| == 16 && Sound(table[1]) && Sound(table[3]) && Sound(table[5]) && Sound(table[7])
  }

  lemma SoundSum(p: Curve.Point, q: Curve.Point)
    requires Sound(p) && Sound(q)
    ensures Sound(Curve.Add(p, q))
  {
    hide Curve.Add, Curve.OnCurve, Curve.Reduced;
    Curve.AddOnCurve(p, q);
  }

  lemma SoundDouble(p: Curve.Point)
    requires Sound(p)
    ensures Sound(Curve.Double(p))
  {
    hide Curve.Double, Curve.OnCurve, Curve.Reduced;
    Curve.DoubleOnCurve(p);
  }

  lemma SoundNegate(p: Curve.Point)
    requires Sound(p)
    ensures Sound(Curve.Negate(p))
  {
    hide Curve.Negate, Curve.OnCurve, Curve.Reduced;
    Curve.NegateOnCurve(p);
  }

  lemma SoundConstants()
    ensures Sound(Curve.Identity) && Sound(Curve.Point(0, 0, 0, 0))
  {
    Curve.IdentityOnCurve();
    Field.Reflexive(0);
    hide Field.Congruent;
  }

  lemma SoundDecoded(encoded: nat)
    requires Decompress.Decode(encoded).Some?
    ensures Sound(Decompress.Decode(encoded).value)
  {
    Decompress.DecodedPoint(encoded);
    hide Curve.OnCurve, Curve.Reduced, Decompress.Decode;
  }

  /** Whatever is selected for a nonzero digit lies on the curve. */
  lemma SoundSelected(table: seq<Curve.Point>, a: Curve.Point, a3: Curve.Point, a5: Curve.Point, a7: Curve.Point, d: int)
    requires ScalarWnaf.IsDigit(d) && d != 0
    ensures ScalarWnaf.Nibble(d) < 16
    ensures Sound(a) && Sound(a3) && Sound(a5) && Sound(a7) ==> Sound(SelectA(ScalarWnaf.Nibble(d), a, a3, a5, a7))
    ensures SoundTable(table) ==> Sound(SelectB(ScalarWnaf.Nibble(d), table))
  {
    NibbleOfDigit(d);
    hide Sound, Curve.Negate, ScalarWnaf.Nibble;
    if Sound(a) && Sound(a3) && Sound(a5) && Sound(a7) {
      SoundNegate(a);
      SoundNegate(a3);
      SoundNegate(a5);
      SoundNegate(a7);
    }
    if SoundTable(table) {
      SoundNegate(table[1]);
      SoundNegate(table[3]);
      SoundNegate(table[5]);
      SoundNegate(table[7]);
    }
  }

  lemma NibbleOfDigit(d: int)
    requires ScalarWnaf.IsDigit(d)
    ensures var n := ScalarWnaf.Nibble(d);
      && n < 16 && (n == 0 <==> d == 0) && (n >= 8 <==> d < 0)
      && DigitAbs(n) == if d < 0 then -d else d
  {
  }

  /** The point selected for digit d is -d A. */
  lemma SelectedA<G(!new)>(m: Model<G>, x: G, a: Curve.Point, a3: Curve.Point, a5: Curve.Point, a7: Curve.Point, d: int)
    requires Interprets(m) && OddTable(m, x, a, a3, a5, a7) && ScalarWnaf.IsDigit(d) && d != 0
    ensures ScalarWnaf.Nibble(d) < 16
    ensures Stands(m, SelectA(ScalarWnaf.Nibble(d), a, a3, a5, a7), m.group.neg(Times(m.group, d, x)))
  {
    hide Interprets, Stands, Times, Curve.Negate, ScalarWnaf.Nibble;
    NibbleOfDigit(d);
    var j := if d < 0 then -d else d;
    var p := if j == 1 then a else if j == 3 then a3 else if j == 5 then a5 else a7;
    StandsNegate(m, p, Times(m.group, j, x));
    TimesNeg(m.group, d, x) by { OfInterprets(m); }
  }

  /** The point selected for digit d is d B. */
  lemma SelectedB<G(!new)>(m: Model<G>, table: seq<Curve.Point>, d: int)
    requires Interprets(m) && TableHolds(m, table) && ScalarWnaf.IsDigit(d) && d != 0
    ensures ScalarWnaf.Nibble(d) < 16
    ensures Stands(m, SelectB(ScalarWnaf.Nibble(d), table), Times(m.group, d, m.base))
  {
    hide Interprets, Stands, Times, Curve.Negate, ScalarWnaf.Nibble, TableHolds;
    NibbleOfDigit(d);
    var j: nat := if d < 0 then -d else d;
    TableEntry(m, table, j);
    StandsNegate(m, table[j], Times(m.group, j, m.base));
    TimesNeg(m.group, j, m.base) by { OfInterprets(m); }
  }

  lemma OfInterprets<G(!new)>(m: Model<G>)
    requires Interprets(m)
    ensures Commutative(m.group)
  {
  }

  lemma TableEntry<G>(m: Model<G>, table: seq<Curve.Point>, j: nat)
    requires TableHolds(m, table) && (j == 1 || j == 3 || j == 5 || j == 7)
    ensures |table| == 16 && Stands(m, table[j], Times(m.group, j, m.base))
  {
    hide Stands, Times;
  }
}
