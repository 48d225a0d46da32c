/**
 * The field prime is prime: each prime of a chain is proved from a prime factor of its predecessor. The
 * powers that takes go through their exponents eight base-4 digits at a time.
 */
module FieldPrime {
  import opened Bits
  import opened Primes
  import Field

  const P0: nat := 991
  const P1: nat := 8574133
  const P2: nat := 1919519569386763
  const P3: nat := 75445702479781427272750846543864801
  const P4: nat := 74058212732561358302231226437062788676166966415465897661863160754340907

  // ----- powers, digit by digit -----

  ghost predicate IsPower(n: Modulus, b: nat, e: nat, v: int) {
    Same(Pow(b, e), v, n)
  }

  /** y is v^4 b^w modulo n, for a base-4 digit w. */
  ghost predicate Follows(n: Modulus, b: nat, v: nat, w: nat, y: int) {
    w < 4 && Same(v * v * (v * v) * Pow(b, w), y, n)
  }

  lemma FollowStep(n: Modulus, b: nat, e: nat, v: nat, w: nat, y: int)
    requires IsPower(n, b, e, v) && Follows(n, b, v, w, y)
    ensures IsPower(n, b, 4 * e + w, y)
  {
    hide Same, Pow;
    PowAdd(b, e, e);
    PowAdd(b, 2 * e, 2 * e);
    PowAdd(b, 4 * e, w);
    Reflexive(Pow(b, w), n);
    Products(Pow(b, e), v, Pow(b, e), v, n);
    Products(Pow(b, 2 * e), v * v, Pow(b, 2 * e), v * v, n);
    Products(Pow(b, 4 * e), v * v * (v * v), Pow(b, w), Pow(b, w), n);
    Transitive(Pow(b, 4 * e + w), v * v * (v * v) * Pow(b, w), y, n);
  }

  lemma EightFollow(n: Modulus, b: nat, e: nat, v: nat, w1: nat, v1: nat, w2: nat, v2: nat, w3: nat, v3: nat, w4: nat, v4: nat, w5: nat, v5: nat,
                    w6: nat, v6: nat, w7: nat, v7: nat, w8: nat, v8: nat)
    requires IsPower(n, b, e, v)
    requires Follows(n, b, v, w1, v1) && Follows(n, b, v1, w2, v2) && Follows(n, b, v2, w3, v3) && Follows(n, b, v3, w4, v4)
    requires Follows(n, b, v4, w5, v5) && Follows(n, b, v5, w6, v6) && Follows(n, b, v6, w7, v7) && Follows(n, b, v7, w8, v8)
    ensures IsPower(n, b, 65536 * e + Eight(w1, w2, w3, w4, w5, w6, w7, w8), v8)
  {
    hide IsPower, Follows;
    FollowStep(n, b, e, v, w1, v1);
    FollowStep(n, b, 4 * e + w1, v1, w2, v2);
    FollowStep(n, b, 16 * e + 4 * w1 + w2, v2, w3, v3);
    FollowStep(n, b, 64 * e + 16 * w1 + 4 * w2 + w3, v3, w4, v4);
    FollowStep(n, b, 256 * e + 64 * w1 + 16 * w2 + 4 * w3 + w4, v4, w5, v5);
    FollowStep(n, b, 1024 * e + 256 * w1 + 64 * w2 + 16 * w3 + 4 * w4 + w5, v5, w6, v6);
    FollowStep(n, b, 4096 * e + 1024 * w1 + 256 * w2 + 64 * w3 + 16 * w4 + 4 * w5 + w6, v6, w7, v7);
    FollowStep(n, b, 16384 * e + 4096 * w1 + 1024 * w2 + 256 * w3 + 64 * w4 + 16 * w5 + 4 * w6 + w7, v7, w8, v8);
  }

  /** Eight base-4 digits as a number. */
  function Eight(w1: nat, w2: nat, w3: nat, w4: nat, w5: nat, w6: nat, w7: nat, w8: nat): nat {
    16384 * w1 + 4096 * w2 + 1024 * w3 + 256 * w4 + 64 * w5 + 16 * w6 + 4 * w7 + w8
  }

  lemma ZerothPower(n: Modulus, b: nat)
    ensures IsPower(n, b, 0, 1)
  {
    Reflexive(1, n);
  }

  lemma SmallPowers(b: nat)
    ensures Pow(b, 0) == 1 && Pow(b, 1) == b && Pow(b, 2) == b * b && Pow(b, 3) == b * b * b
  {
    assert b * (b * b) == b * b * b;
  }

  lemma NextFollows(n: Modulus, b: nat, v: nat, w: nat, m: int)
    requires w < 4 && Same(Pow(b, w), m, n)
    ensures Follows(n, b, v, w, v * v * (v * v) * m % n)
  {
    hide Same, Pow;
    var q := v * v * (v * v);
    Reflexive(q, n);
    Products(q, q, Pow(b, w), m, n);
    Remainder(q * m, n);
    Symmetric(q * m % n, q * m, n);
    Transitive(q * Pow(b, w), q * m, q * m % n, n);
  }

  // ----- modulo P1 -----

  const B1: nat := 0x346cd1

  /** v^4 times a power of B1. */
  predicate Next1(v: nat, w: nat, y: nat) {
    && w < 4
    && v * v * (v * v) * (if w < 1 then 1 else if w < 2 then 0x346cd1
      else if w < 3 then 0x1d7e53 else 0x730281) % 0x82d4b5 == y
  }

  lemma Next1Follows(v: nat, w: nat, y: nat)
    requires Next1(v, w, y)
    ensures Follows(P1, B1, v, w, y)
  {
    SmallPowers(B1);
    hide Pow;
    assert Same(0x346cd1 * 0x346cd1, 0x1d7e53, 0x82d4b5);
    assert Same(0x346cd1 * 0x346cd1 * 0x346cd1, 0x730281, 0x82d4b5);
    hide Same;
    Reflexive(1, P1);
    Reflexive(B1, P1);
    NextFollows(P1, B1, v, w, if w < 1 then 1 else if w < 2 then 0x346cd1
      else if w < 3 then 0x1d7e53 else 0x730281);
  }

  predicate Eight1(v: nat, w1: nat, v1: nat, w2: nat, v2: nat, w3: nat, v3: nat, w4: nat, v4: nat, w5: nat, v5: nat,
                    w6: nat, v6: nat, w7: nat, v7: nat, w8: nat, v8: nat) {
    && Next1(v, w1, v1) && Next1(v1, w2, v2) && Next1(v2, w3, v3) && Next1(v3, w4, v4)
    && Next1(v4, w5, v5) && Next1(v5, w6, v6) && Next1(v6, w7, v7) && Next1(v7, w8, v8)
  }

  lemma Eight1On(e: nat)
    ensures forall v: nat, w1: nat, v1: nat, w2: nat, v2: nat, w3: nat, v3: nat, w4: nat, v4: nat, w5: nat, v5: nat, w6: nat, v6: nat,
      w7: nat, v7: nat, w8: nat, v8: nat ::
      Eight1(v, w1, v1, w2, v2, w3, v3, w4, v4, w5, v5, w6, v6, w7, v7, w8, v8) && IsPower(P1, B1, e, v) ==>
      IsPower(P1, B1, 65536 * e + Eight(w1, w2, w3, w4, w5, w6, w7, w8), v8)
  {
    hide IsPower, Follows, Next1, Eight;
    forall v: nat, w: nat, y: nat | Next1(v, w, y) ensures Follows(P1, B1, v, w, y) {
      Next1Follows(v, w, y);
    }
    forall v: nat, w1: nat, v1: nat, w2: nat, v2: nat, w3: nat, v3: nat, w4: nat, v4: nat, w5: nat, v5: nat, w6: nat, v6: nat,
      w7: nat, v7: nat, w8: nat, v8: nat |
      Eight1(v, w1, v1, w2, v2, w3, v3, w4, v4, w5, v5, w6, v6, w7, v7, w8, v8) && IsPower(P1, B1, e, v)
      ensures IsPower(P1, B1, 65536 * e + Eight(w1, w2, w3, w4, w5, w6, w7, w8), v8)
    {
      EightFollow(P1, B1, e, v, w1, v1, w2, v2, w3, v3, w4, v4, w5, v5, w6, v6, w7, v7, w8, v8);
    }
  }

  lemma Steps1From0()
    ensures Eight1(0x1, 0, 0x1, 0, 0x1, 0, 0x1, 3, 0x730281, 3, 0x67873c, 1, 0x159ed7, 3, 0x4cd86a, 3, 0x1)
  {
  }

  lemma Power1()
    ensures IsPower(P1, B1, P0, 1)
  {
    hide IsPower, Eight1;
    ZerothPower(P1, B1);
    Steps1From0();
    Eight1On(0x0);
  }

  lemma Inverse1()
    ensures Same((B1 - 1) * 0xf79eb, 1, P1) && P1 - 1 == P0 * 8652
    ensures 8652 / P0 == 8 && 8652 % P0 == 724
  {
    assert Same(0x346cd0 * 0xf79eb, 1, 0x82d4b5);
  }

  lemma Prime1()
    ensures IsPrime(P1)
  {
    Inverse1();
    Prime0();
    Power1();
    hide IsPrime, Same, Pow;
    ProvedPrime(P1, P0, 8652, B1, 0xf79eb);
  }

  // ----- modulo P2 -----

  const B2: nat := 0x3c3ffdef7c0b1

  /** v^4 times a power of B2. */
  predicate Next2(v: nat, w: nat, y: nat) {
    && w < 4
    && v * v * (v * v) * (if w < 1 then 1 else if w < 2 then 0x3c3ffdef7c0b1
      else if w < 3 then 0x158280d1c7fe9 else 0x5d17f17b76d79) % 0x6d1cafa129d0b == y
  }

  lemma Next2Follows(v: nat, w: nat, y: nat)
    requires Next2(v, w, y)
    ensures Follows(P2, B2, v, w, y)
  {
    SmallPowers(B2);
    hide Pow;
    assert Same(0x3c3ffdef7c0b1 * 0x3c3ffdef7c0b1, 0x158280d1c7fe9, 0x6d1cafa129d0b);
    assert Same(0x3c3ffdef7c0b1 * 0x3c3ffdef7c0b1 * 0x3c3ffdef7c0b1, 0x5d17f17b76d79, 0x6d1cafa129d0b);
    hide Same;
    Reflexive(1, P2);
    Reflexive(B2, P2);
    NextFollows(P2, B2, v, w, if w < 1 then 1 else if w < 2 then 0x3c3ffdef7c0b1
      else if w < 3 then 0x158280d1c7fe9 else 0x5d17f17b76d79);
  }

  predicate Eight2(v: nat, w1: nat, v1: nat, w2: nat, v2: nat, w3: nat, v3: nat, w4: nat, v4: nat, w5: nat, v5: nat,
                    w6: nat, v6: nat, w7: nat, v7: nat, w8: nat, v8: nat) {
    && Next2(v, w1, v1) && Next2(v1, w2, v2) && Next2(v2, w3, v3) && Next2(v3, w4, v4)
    && Next2(v4, w5, v5) && Next2(v5, w6, v6) && Next2(v6, w7, v7) && Next2(v7, w8, v8)
  }

  lemma Eight2On(e: nat)
    ensures forall v: nat, w1: nat, v1: nat, w2: nat, v2: nat, w3: nat, v3: nat, w4: nat, v4: nat, w5: nat, v5: nat, w6: nat, v6: nat,
      w7: nat, v7: nat, w8: nat, v8: nat ::
      Eight2(v, w1, v1, w2, v2, w3, v3, w4, v4, w5, v5, w6, v6, w7, v7, w8, v8) && IsPower(P2, B2, e, v) ==>
      IsPower(P2, B2, 65536 * e + Eight(w1, w2, w3, w4, w5, w6, w7, w8), v8)
  {
    hide IsPower, Follows, Next2, Eight;
    forall v: nat, w: nat, y: nat | Next2(v, w, y) ensures Follows(P2, B2, v, w, y) {
      Next2Follows(v, w, y);
    }
    forall v: nat, w1: nat, v1: nat, w2: nat, v2: nat, w3: nat, v3: nat, w4: nat, v4: nat, w5: nat, v5: nat, w6: nat, v6: nat,
      w7: nat, v7: nat, w8: nat, v8: nat |
      Eight2(v, w1, v1, w2, v2, w3, v3, w4, v4, w5, v5, w6, v6, w7, v7, w8, v8) && IsPower(P2, B2, e, v)
      ensures IsPower(P2, B2, 65536 * e + Eight(w1, w2, w3, w4, w5, w6, w7, w8), v8)
    {
      EightFollow(P2, B2, e, v, w1, v1, w2, v2, w3, v3, w4, v4, w5, v5, w6, v6, w7, v7, w8, v8);
    }
  }

  lemma Steps2From0()
    ensures Eight2(0x1, 0, 0x1, 0, 0x1, 0, 0x1, 0, 0x1, 2, 0x158280d1c7fe9, 0, 0xa1a81c865ef3, 0, 0x612344a925350, 2, 0x626b6bf964a0b)
  {
  }

  lemma Steps2From1()
    ensures Eight2(0x626b6bf964a0b, 3, 0x1af1b0376649d, 1, 0x67339e4b07ecd, 1, 0x3e3bdbc06dca4, 0, 0x5319205ebe88c, 2, 0x2741e82e93a2c,
      3, 0x11a52cb514f6b, 1, 0x5967ff7111a20, 1, 0x1)
  {
  }

  lemma Power2()
    ensures IsPower(P2, B2, P1, 1)
  {
    hide IsPower, Eight2;
    ZerothPower(P2, B2);
    Steps2From0();
    Steps2From1();
    Eight2On(0x0);
    Eight2On(0x82);
  }

  lemma Inverse2()
    ensures Same((B2 - 1) * 0x495bef080ea35, 1, P2) && P2 - 1 == P1 * 223873314
    ensures 223873314 / P1 == 26 && 223873314 % P1 == 945856
  {
    assert Same(0x3c3ffdef7c0b0 * 0x495bef080ea35, 1, 0x6d1cafa129d0b);
  }

  lemma Prime2()
    ensures IsPrime(P2)
  {
    Inverse2();
    Prime1();
    Power2();
    hide IsPrime, Same, Pow;
    ProvedPrime(P2, P1, 223873314, B2, 0x495bef080ea35);
  }

  // ----- modulo P3 -----

  const B3: nat := 0xaedd80ab27e8de3ca5f2fb22d5403

  /** v^4 times a power of B3. */
  predicate Next3(v: nat, w: nat, y: nat) {
    && w < 4
    && v * v * (v * v) * (if w < 1 then 1 else if w < 2 then 0xaedd80ab27e8de3ca5f2fb22d5403
      else if w < 3 then 0xb0da74ed5d70949974a587c3858eb else 0x22f28959a6094f3ec9a3cec3753fd) % 0xe87c2a477b815a1793787395b23e1 == y
  }

  lemma Next3Follows(v: nat, w: nat, y: nat)
    requires Next3(v, w, y)
    ensures Follows(P3, B3, v, w, y)
  {
    SmallPowers(B3);
    hide Pow;
    assert Same(0xaedd80ab27e8de3ca5f2fb22d5403 * 0xaedd80ab27e8de3ca5f2fb22d5403, 0xb0da74ed5d70949974a587c3858eb, 0xe87c2a477b815a1793787395b23e1);
    assert Same(0xaedd80ab27e8de3ca5f2fb22d5403 * 0xaedd80ab27e8de3ca5f2fb22d5403 * 0xaedd80ab27e8de3ca5f2fb22d5403, 0x22f28959a6094f3ec9a3cec3753fd, 0xe87c2a477b815a1793787395b23e1);
    hide Same;
    Reflexive(1, P3);
    Reflexive(B3, P3);
    NextFollows(P3, B3, v, w, if w < 1 then 1 else if w < 2 then 0xaedd80ab27e8de3ca5f2fb22d5403
      else if w < 3 then 0xb0da74ed5d70949974a587c3858eb else 0x22f28959a6094f3ec9a3cec3753fd);
  }

  predicate Eight3(v: nat, w1: nat, v1: nat, w2: nat, v2: nat, w3: nat, v3: nat, w4: nat, v4: nat, w5: nat, v5: nat,
                    w6: nat, v6: nat, w7: nat, v7: nat, w8: nat, v8: nat) {
    && Next3(v, w1, v1) && Next3(v1, w2, v2) && Next3(v2, w3, v3) && Next3(v3, w4, v4)
    && Next3(v4, w5, v5) && Next3(v5, w6, v6) && Next3(v6, w7, v7) && Next3(v7, w8, v8)
  }

  lemma Eight3On(e: nat)
    ensures forall v: nat, w1: nat, v1: nat, w2: nat, v2: nat, w3: nat, v3: nat, w4: nat, v4: nat, w5: nat, v5: nat, w6: nat, v6: nat,
      w7: nat, v7: nat, w8: nat, v8: nat ::
      Eight3(v, w1, v1, w2, v2, w3, v3, w4, v4, w5, v5, w6, v6, w7, v7, w8, v8) && IsPower(P3, B3, e, v) ==>
      IsPower(P3, B3, 65536 * e + Eight(w1, w2, w3, w4, w5, w6, w7, w8), v8)
  {
    hide IsPower, Follows, Next3, Eight;
    forall v: nat, w: nat, y: nat | Next3(v, w, y) ensures Follows(P3, B3, v, w, y) {
      Next3Follows(v, w, y);
    }
    forall v: nat, w1: nat, v1: nat, w2: nat, v2: nat, w3: nat, v3: nat, w4: nat, v4: nat, w5: nat, v5: nat, w6: nat, v6: nat,
      w7: nat, v7: nat, w8: nat, v8: nat |
      Eight3(v, w1, v1, w2, v2, w3, v3, w4, v4, w5, v5, w6, v6, w7, v7, w8, v8) && IsPower(P3, B3, e, v)
      ensures IsPower(P3, B3, 65536 * e + Eight(w1, w2, w3, w4, w5, w6, w7, w8), v8)
    {
      EightFollow(P3, B3, e, v, w1, v1, w2, v2, w3, v3, w4, v4, w5, v5, w6, v6, w7, v7, w8, v8);
    }
  }

  lemma Steps3From0()
    ensures Eight3(0x1, 0, 0x1, 0, 0x1, 0, 0x1, 0, 0x1, 0, 0x1, 0, 0x1, 1, 0xaedd80ab27e8de3ca5f2fb22d5403, 2,
      0x7b07abf2a0bdfa0b9dd400295ab)
  {
  }

  lemma Steps3From1()
    ensures Eight3(0x7b07abf2a0bdfa0b9dd400295ab, 3, 0x86f41bda7c9b2a0ea67579a5971cd, 1, 0x53d31a0a415a647d81ba17c64cb9c, 0,
      0x71f9ced5e7ced7df9a9a7c51912e1, 1, 0x8a4ce1ca61270808e9f80c903fa92, 3, 0xb93588d98b41cdea0a321d17728, 0,
      0x311c7da706526c7b84452ad03a077, 2, 0xe49cda690b91541a0b4bdedd2400b, 2, 0x832c61ba16d59cb5e168e09fefff3)
  {
  }

  lemma Steps3From2()
    ensures Eight3(0x832c61ba16d59cb5e168e09fefff3, 3, 0x3153b661018255cbd0a0f75054ca4, 3, 0xdef4b93c246326ad733ff245e8807, 2,
      0x1a044229e28f73659f53fba8831ae, 2, 0x2b80db59644f026a0903288aaaa5d, 0, 0x8abf84e490585b935976b1bdd486b, 1,
      0x523c96f162978ca422a4dfdd98edb, 0, 0x74d5f338e0a6231fe90cf6f410723, 2, 0x1acf64ac33b953f3a87c1cd463c50)
  {
  }

  lemma Steps3From3()
    ensures Eight3(0x1acf64ac33b953f3a87c1cd463c50, 2, 0xd2f25f4ad230f919bdeb95c0e36f4, 1, 0x2b021a7ab552f243edc3ba9800c8e, 3,
      0x8b6152c1cfcd0923cce5add5d51c5, 1, 0xdd5967d7f15948d246efbdead218c, 0, 0x7ad56a78a8c4b8c1209fe3b3e6158, 0,
      0x26780b9ac5112b06374380fca4b4c, 2, 0x570414ecf62a60bea569123ff9dbd, 3, 0x1)
  {
  }

  lemma Power3()
    ensures IsPower(P3, B3, P2, 1)
  {
    hide IsPower, Eight3;
    ZerothPower(P3, B3);
    Steps3From0();
    Steps3From1();
    Steps3From2();
    Steps3From3();
    Eight3On(0x0);
    Eight3On(0x6);
    Eight3On(0x6d1ca);
    Eight3On(0x6d1cafa12);
  }

  lemma Inverse3()
    ensures Same((B3 - 1) * 0xe5e342b4c0a3d507894bab5f20e8b, 1, P3) && P3 - 1 == P2 * 39304471641247389600
    ensures 39304471641247389600 / P2 == 20476 && 39304471641247389600 % P2 == 388938484030412
  {
    assert Same(0xaedd80ab27e8de3ca5f2fb22d5402 * 0xe5e342b4c0a3d507894bab5f20e8b, 1, 0xe87c2a477b815a1793787395b23e1);
  }

  lemma Prime3()
    ensures IsPrime(P3)
  {
    Inverse3();
    Prime2();
    Power3();
    hide IsPrime, Same, Pow;
    ProvedPrime(P3, P2, 39304471641247389600, B3, 0xe5e342b4c0a3d507894bab5f20e8b);
  }

  // ----- modulo P4 -----

  const B4: nat := 0xa118eb0f9d8184bab59e8e45df736d65fba3c64f4aa855bc8921ac18308

  /** v^4 times a power of B4. */
  predicate Next4(v: nat, w: nat, y: nat) {
    && w < 4
    && v * v * (v * v) * (if w < 1 then 1 else if w < 2 then 0xa118eb0f9d8184bab59e8e45df736d65fba3c64f4aa855bc8921ac18308
      else if w < 3 then 0xa5ccf5d3db56ce62be5238a53085cf2ecc7232c8797eb546caaddfb617c else 0x8b4cf1d206f83670a1bd65b3b5531c0696ae852450b960b7180d25e9d0e) % 0xabaf8c6b094fd0f32c2ccabab864dbecd99144679c1adf804898fb2042b == y
  }

  lemma Next4Follows(v: nat, w: nat, y: nat)
    requires Next4(v, w, y)
    ensures Follows(P4, B4, v, w, y)
  {
    SmallPowers(B4);
    hide Pow;
    assert Same(0xa118eb0f9d8184bab59e8e45df736d65fba3c64f4aa855bc8921ac18308 * 0xa118eb0f9d8184bab59e8e45df736d65fba3c64f4aa855bc8921ac18308, 0xa5ccf5d3db56ce62be5238a53085cf2ecc7232c8797eb546caaddfb617c, 0xabaf8c6b094fd0f32c2ccabab864dbecd99144679c1adf804898fb2042b);
    assert Same(0xa118eb0f9d8184bab59e8e45df736d65fba3c64f4aa855bc8921ac18308 * 0xa118eb0f9d8184bab59e8e45df736d65fba3c64f4aa855bc8921ac18308 * 0xa118eb0f9d8184bab59e8e45df736d65fba3c64f4aa855bc8921ac18308, 0x8b4cf1d206f83670a1bd65b3b5531c0696ae852450b960b7180d25e9d0e, 0xabaf8c6b094fd0f32c2ccabab864dbecd99144679c1adf804898fb2042b);
    hide Same;
    Reflexive(1, P4);
    Reflexive(B4, P4);
    NextFollows(P4, B4, v, w, if w < 1 then 1 else if w < 2 then 0xa118eb0f9d8184bab59e8e45df736d65fba3c64f4aa855bc8921ac18308
      else if w < 3 then 0xa5ccf5d3db56ce62be5238a53085cf2ecc7232c8797eb546caaddfb617c else 0x8b4cf1d206f83670a1bd65b3b5531c0696ae852450b960b7180d25e9d0e);
  }

  predicate Eight4(v: nat, w1: nat, v1: nat, w2: nat, v2: nat, w3: nat, v3: nat, w4: nat, v4: nat, w5: nat, v5: nat,
                    w6: nat, v6: nat, w7: nat, v7: nat, w8: nat, v8: nat) {
    && Next4(v, w1, v1) && Next4(v1, w2, v2) && Next4(v2, w3, v3) && Next4(v3, w4, v4)
    && Next4(v4, w5, v5) && Next4(v5, w6, v6) && Next4(v6, w7, v7) && Next4(v7, w8, v8)
  }

  lemma Eight4On(e: nat)
    ensures forall v: nat, w1: nat, v1: nat, w2: nat, v2: nat, w3: nat, v3: nat, w4: nat, v4: nat, w5: nat, v5: nat, w6: nat, v6: nat,
      w7: nat, v7: nat, w8: nat, v8: nat ::
      Eight4(v, w1, v1, w2, v2, w3, v3, w4, v4, w5, v5, w6, v6, w7, v7, w8, v8) && IsPower(P4, B4, e, v) ==>
      IsPower(P4, B4, 65536 * e + Eight(w1, w2, w3, w4, w5, w6, w7, w8), v8)
  {
    hide IsPower, Follows, Next4, Eight;
    forall v: nat, w: nat, y: nat | Next4(v, w, y) ensures Follows(P4, B4, v, w, y) {
      Next4Follows(v, w, y);
    }
    forall v: nat, w1: nat, v1: nat, w2: nat, v2: nat, w3: nat, v3: nat, w4: nat, v4: nat, w5: nat, v5: nat, w6: nat, v6: nat,
      w7: nat, v7: nat, w8: nat, v8: nat |
      Eight4(v, w1, v1, w2, v2, w3, v3, w4, v4, w5, v5, w6, v6, w7, v7, w8, v8) && IsPower(P4, B4, e, v)
      ensures IsPower(P4, B4, 65536 * e + Eight(w1, w2, w3, w4, w5, w6, w7, w8), v8)
    {
      EightFollow(P4, B4, e, v, w1, v1, w2, v2, w3, v3, w4, v4, w5, v5, w6, v6, w7, v7, w8, v8);
    }
  }

  lemma Steps4From0()
    ensures Eight4(0x1, 0, 0x1, 0, 0x1, 0, 0x1, 0, 0x1, 0, 0x1, 0, 0x1, 3,
      0x8b4cf1d206f83670a1bd65b3b5531c0696ae852450b960b7180d25e9d0e, 2,
      0x58dc130308dd4efe1f821ac60fa137b9ef44bdb398e9534e07e281a56e)
    ensures Eight4(0x58dc130308dd4efe1f821ac60fa137b9ef44bdb398e9534e07e281a56e, 2,
      0x7d85cfde4f00836c342a258930be7dfa0b10a763f916e2724f0cfaab568, 0,
      0x96b3210909a8c8117c615e847ef91d9bb7579d4c7da760f5028d0d749ee, 1,
      0x2639a6ecb2839b20f25da83ede3c574b0807b352e7cdd33d4a86415a61d, 3,
      0x23d6a1da936a6f2e2c3d154bbd725a5227612211b8fad6a6ae7b8c04b12, 3,
      0x66e62422dac05613028954ef8af6a89794fe4cb8fc39a01a67918ac4463, 0,
      0x73e2b308c4d77136eb35c70ef4781525bbb4035cd27c88fb02700bbe077, 0,
      0xa48ce48fa3f1e6756db9b4c730858ecadac6628919b4ae5b86a2d798ccb, 2,
      0xa4221117ec614844a3207f77b9b3be05f68d922de37afd7a54e101a8de5)
    ensures Eight4(0xa4221117ec614844a3207f77b9b3be05f68d922de37afd7a54e101a8de5, 2,
      0x7e3eca5495a5e3c2212eb8688487e79bc6c042389f01a1b706748ef3332, 2,
      0x6997c13781fe17841280a22b659c00834a959d6138ec9d3f2821d9d2c64, 1,
      0x45deae5d1733e9e844d8f1737a466b03c3269c73dc12c13607bd020f10c, 0,
      0x5109b0515e8fba2c205ecedd1416f736fecc816926b9a887bbbc62ff635, 1,
      0x3917f5d4e24b10f3b58aaacad3399baa5982d0d3819b4be1d9ed76dff91, 3,
      0x8c4e4b1bd51e029a05cebe12fcd639608ca9d69136c13fec807f0df59f1, 1,
      0xa3dfd549c46392b28ec4e53be7d094e059fa1b1a6e42df45b515096160, 3,
      0xc21b19452b898884e91a01ccf71d26c0c00f96f6de89e8a751442eee1b)
    ensures Eight4(0xc21b19452b898884e91a01ccf71d26c0c00f96f6de89e8a751442eee1b, 2,
      0x1521b4139d59dd46e5565b9db568908af5f45f9eaeef2ebe1a7d5d9f911, 3,
      0x4145cdc672cce1babe03b600ef34e5cc90c4a8f76dafbaa7e74f4d58d14, 2,
      0x4c37276d9691be7c056b2f28a7d7fc2d5573e792c34a16d50a712730344, 0,
      0x4909b9ea2ec9a7b910cf3eb8bafb40f4867d33792b4378132e9998d4c8a, 0,
      0x937e3ad229d4b3d482feb386306ef59a45880b0eb66769396237b6737ea, 1,
      0x5bc94b0f9f61f6290a8e318de8176e243bf0ac26d0870c5dc8fc7072899, 1,
      0xdb193a211c8411a640a2dc782009608f9d15f6db4a3705061675dcae21, 1,
      0x41a0bd2693151d443b62e7c331b15e77c8072326dd16e247efb7bfbbe39)
  {
  }

  lemma Steps4From4()
    ensures Eight4(0x41a0bd2693151d443b62e7c331b15e77c8072326dd16e247efb7bfbbe39, 2,
      0x3c9ba986d51528485eba12677a53fb2e15dbf3be3898cd080468f3081ce, 2,
      0x3adf545ec73b51fedeb89bde091359c2417c7ff0a2a6cf0a26dc49f2e97, 0,
      0x8085b9363e04ff6f91ca4f7359073735fc00b5b247abd03f5e7c6be0ada, 1,
      0xc333e695c557dea1833a6d4c2ebd8e9becd7e01880c70229f73ef0ee6f, 1,
      0x42a137b599d4ccaff49da9f7f91a3595e00e3c24721375b63d046801884, 3,
      0xe0b5ae692be86abe4f0763d240a8c16e14af973a0442bf342a9877f25f, 2,
      0x5544d14241e0efc6ed836c880257df8dbd63fd0ba6502c7b66617d9db60, 1,
      0x4dbda4b7be7c597933d2c2e02ed65b14f8b8beb749fb71e27a01b85eac5)
    ensures Eight4(0x4dbda4b7be7c597933d2c2e02ed65b14f8b8beb749fb71e27a01b85eac5, 0,
      0x112745b5b0ac7355ea2834b6a1f04b75b62f6ce591b21e384cae733b0e9, 3,
      0x7879a5f59674f0f8baee443d58990af1d4b8284319cc263bb828de171d2, 1,
      0x1b38053a9c01248edb08b3a320656956ef9d30e027ff2e771a3ad53c1a6, 3,
      0x87eb4cb255a29a8e7c5a4e5083a911c9193628ec41e6c414f36ebcf160b, 2,
      0xccae0b69a05f5ce20b55c81b50394bdfe023d0428cb66710b71d1c8354, 0,
      0x576f3c4c28aec4e2460338906ab9ac647159bbe6483e87e60682c6b6c3, 1,
      0x25f1bebb0dd9b80cc0aa701df7c2f76d1e3076919f7c7b0f234463399d8, 3,
      0x64cac31c919b935f1547c173a2ecab65db86cdc408a49da5b2070910130)
    ensures Eight4(0x64cac31c919b935f1547c173a2ecab65db86cdc408a49da5b2070910130, 0,
      0x1f1faa2ad73d39374e4b9a14393289259e73ff1d149fd4c38a014fc8e2c, 3,
      0x42a75d74dd5854e48c5bc6f3120861bfa26cdc4b107213726e674ef60d3, 2,
      0x452787058f602bea144998ad11ac27816a18e6dbb18035d5a8e033003a6, 1,
      0x1eef041bbbe4684ed28066981df940860160a7f2a67079c025a8bcc97ee, 1,
      0x3640de1fdecfb7b133784f9091e75f84e8a6fe8cff6469f06a72a559eac, 1,
      0xaa8753e2e48c553a6ee84837a7afaa12e90be701a6d6ebc59a010d5907c, 2,
      0x8c36d937b7fb8d95297ae3f389bd5be20a467de384373d8a4fdd91c9628, 3,
      0x231fd69125647c9c3524a011dcefd665c1ec24fd92619a6b2314f466802)
    ensures Eight4(0x231fd69125647c9c3524a011dcefd665c1ec24fd92619a6b2314f466802, 0,
      0x29dbd3ecd3042d5e90b82161bf909eb5bb0722739ab4fb5798e80b6a3a7, 2,
      0x430f5a0aceb9a83e8cecc8696a4a796abd5746ff3b4aad08f17e18a89f2, 0,
      0x4cec2728adecc3dac46ad3cda7a0378037a6d6430311d36321168174082, 3,
      0xa7f2a89537e29ecc3ef90f60dbb855ebdbd8184e6922ec0915f7e3b8486, 3,
      0x1dec702ff514def393a13de3791001b6fec476630ba72aca68d010bb15a, 2,
      0x9d6ef5f5f52fef9387c54ea455f297eab23cc8947f1566a17c9ec5cccaf, 0,
      0xd5132c9e69001a4c28ac6027327fd2ad76e94ff28a7be4fb3616a5677a, 1, 0x1)
  {
  }

  lemma Power4()
    ensures IsPower(P4, B4, P3, 1)
  {
    hide IsPower, Eight4;
    ZerothPower(P4, B4);
    Steps4From0();
    Steps4From4();
    Eight4On(0x0);
    Eight4On(0xe);
    Eight4On(0xe87c2);
    Eight4On(0xe87c2a477);
    Eight4On(0xe87c2a477b815);
    Eight4On(0xe87c2a477b815a179);
    Eight4On(0xe87c2a477b815a1793787);
    Eight4On(0xe87c2a477b815a1793787395b);
  }

  lemma Inverse4()
    ensures Same((B4 - 1) * 0xa35a14fb1452ddd0fca6eef50ac9bd9a369cab894104fc366d4fa595e38, 1, P4) && P4 - 1 == P3 * 981609426360740691344999861639072106
    ensures 981609426360740691344999861639072106 / P3 == 13 && 981609426360740691344999861639072106 % P3 == 815294123582136799238856568829693
  {
    assert Same(0xa118eb0f9d8184bab59e8e45df736d65fba3c64f4aa855bc8921ac18307 * 0xa35a14fb1452ddd0fca6eef50ac9bd9a369cab894104fc366d4fa595e38, 1, 0xabaf8c6b094fd0f32c2ccabab864dbecd99144679c1adf804898fb2042b);
  }

  lemma Prime4()
    ensures IsPrime(P4)
  {
    Inverse4();
    Prime3();
    Power4();
    hide IsPrime, Same, Pow;
    ProvedPrime(P4, P3, 981609426360740691344999861639072106, B4, 0xa35a14fb1452ddd0fca6eef50ac9bd9a369cab894104fc366d4fa595e38);
  }

  // ----- modulo p -----

  const B: nat := 0xf10bda72989665e25b2f91d26cbc5d4ab0ae74eabcd6acd2f1164aa01ba7316

  /** v^4 times a power of B. */
  predicate NextP(v: nat, w: nat, y: nat) {
    && w < 4
    && v * v * (v * v) * (if w < 1 then 1 else if w < 2 then 0xf10bda72989665e25b2f91d26cbc5d4ab0ae74eabcd6acd2f1164aa01ba7316
      else if w < 3 then 0x587b5882c7860235e1b4dd1a0040c4dbf4f21b56ccb70c2cb5a409f25a97a63c else 0x3552a1623be9acdcb9d5ebb71bedb18bbf2ed5de927e82fbc6006ae089b2a9c3) % 0x7fffffffffffffffffffffffffffffffffffffffffffffffffffffffffffffed == y
  }

  lemma NextPFollows(v: nat, w: nat, y: nat)
    requires NextP(v, w, y)
    ensures Follows(Field.P, B, v, w, y)
  {
    SmallPowers(B);
    hide Pow;
    assert Same(0xf10bda72989665e25b2f91d26cbc5d4ab0ae74eabcd6acd2f1164aa01ba7316 * 0xf10bda72989665e25b2f91d26cbc5d4ab0ae74eabcd6acd2f1164aa01ba7316, 0x587b5882c7860235e1b4dd1a0040c4dbf4f21b56ccb70c2cb5a409f25a97a63c, 0x7fffffffffffffffffffffffffffffffffffffffffffffffffffffffffffffed);
    assert Same(0xf10bda72989665e25b2f91d26cbc5d4ab0ae74eabcd6acd2f1164aa01ba7316 * 0xf10bda72989665e25b2f91d26cbc5d4ab0ae74eabcd6acd2f1164aa01ba7316 * 0xf10bda72989665e25b2f91d26cbc5d4ab0ae74eabcd6acd2f1164aa01ba7316, 0x3552a1623be9acdcb9d5ebb71bedb18bbf2ed5de927e82fbc6006ae089b2a9c3, 0x7fffffffffffffffffffffffffffffffffffffffffffffffffffffffffffffed);
    hide Same;
    Reflexive(1, Field.P);
    Reflexive(B, Field.P);
    NextFollows(Field.P, B, v, w, if w < 1 then 1 else if w < 2 then 0xf10bda72989665e25b2f91d26cbc5d4ab0ae74eabcd6acd2f1164aa01ba7316
      else if w < 3 then 0x587b5882c7860235e1b4dd1a0040c4dbf4f21b56ccb70c2cb5a409f25a97a63c else 0x3552a1623be9acdcb9d5ebb71bedb18bbf2ed5de927e82fbc6006ae089b2a9c3);
  }

  predicate EightP(v: nat, w1: nat, v1: nat, w2: nat, v2: nat, w3: nat, v3: nat, w4: nat, v4: nat, w5: nat, v5: nat,
                    w6: nat, v6: nat, w7: nat, v7: nat, w8: nat, v8: nat) {
    && NextP(v, w1, v1) && NextP(v1, w2, v2) && NextP(v2, w3, v3) && NextP(v3, w4, v4)
    && NextP(v4, w5, v5) && NextP(v5, w6, v6) && NextP(v6, w7, v7) && NextP(v7, w8, v8)
  }

  lemma EightPOn(e: nat)
    ensures forall v: nat, w1: nat, v1: nat, w2: nat, v2: nat, w3: nat, v3: nat, w4: nat, v4: nat, w5: nat, v5: nat, w6: nat, v6: nat,
      w7: nat, v7: nat, w8: nat, v8: nat ::
      EightP(v, w1, v1, w2, v2, w3, v3, w4, v4, w5, v5, w6, v6, w7, v7, w8, v8) && IsPower(Field.P, B, e, v) ==>
      IsPower(Field.P, B, 65536 * e + Eight(w1, w2, w3, w4, w5, w6, w7, w8), v8)
  {
    hide IsPower, Follows, NextP, Eight;
    forall v: nat, w: nat, y: nat | NextP(v, w, y) ensures Follows(Field.P, B, v, w, y) {
      NextPFollows(v, w, y);
    }
    forall v: nat, w1: nat, v1: nat, w2: nat, v2: nat, w3: nat, v3: nat, w4: nat, v4: nat, w5: nat, v5: nat, w6: nat, v6: nat,
      w7: nat, v7: nat, w8: nat, v8: nat |
      EightP(v, w1, v1, w2, v2, w3, v3, w4, v4, w5, v5, w6, v6, w7, v7, w8, v8) && IsPower(Field.P, B, e, v)
      ensures IsPower(Field.P, B, 65536 * e + Eight(w1, w2, w3, w4, w5, w6, w7, w8), v8)
    {
      EightFollow(Field.P, B, e, v, w1, v1, w2, v2, w3, v3, w4, v4, w5, v5, w6, v6, w7, v7, w8, v8);
    }
  }

  lemma StepsPFrom0()
    ensures EightP(0x1, 0, 0x1, 0, 0x1, 2, 0x587b5882c7860235e1b4dd1a0040c4dbf4f21b56ccb70c2cb5a409f25a97a63c, 2,
      0x193f4517b780af247c0d12fc93405a0c29569ae7d3d15c402724aa1f9e933993, 2,
      0x4674cf727461e5b499e7b630cdc3d897ff308f34c0b1c9f0f586254cf0e57ec5, 3,
      0xb3d81295ff2a51f99084499b0ffd0c301636c4fc8f42142f316ac0943c49131, 2,
      0x628ae8bfe7a13513d9743c863082be362e43121a79a005225791fc67fcb632df, 2,
      0x355f47bbc7ba7dad0bac68668b542cf28dd3be241fdb35cbbec60cb34ac84423)
    ensures EightP(0x355f47bbc7ba7dad0bac68668b542cf28dd3be241fdb35cbbec60cb34ac84423, 3,
      0x2935ec87718f5d7b377d25bfe3265370987a7d699a88f34a626f376da7e764fc, 3,
      0x677e8c3c8ee5964a6f2f814f8765ef4fb2dd67103ee168d6c137aafdb1dc458d, 2,
      0x32621427c348ebbb2e763563ed309750a5b28855d58436b91d3045100f3cca0c, 0,
      0x2abc0b874a38e2940465b615bffdb6dc321808eaa693f78c208ffe09f41a1c6, 3,
      0x7723a4529c791575919396f5d7115fb0ca0e15b55bf513b515f878a22703cb84, 0,
      0x42b46e1a95fb5f3a97725084bb33d6c4a294b6580b5454ea392fde331c211c50, 1,
      0x458b60b40461a311f5fee3705f821da853a682659ec9082f0b72cb853162c135, 2,
      0x4ab879090d1f6aad18e28ce2ae83a20588e3d80801ba6d45fe43fb11a01074f7)
    ensures EightP(0x4ab879090d1f6aad18e28ce2ae83a20588e3d80801ba6d45fe43fb11a01074f7, 2,
      0x731a269dc8472da21775095ddd528f29cd3beeab151fe0d8d95eebd78608476b, 3,
      0x2fd40418766bab25203d80cecfc8fa907f86db01c0e43cd88d44d529906407a0, 0,
      0x5679a457f3f9d312d133adc8fdef7161de05d229f96e741a1616a1d3bbb18c7a, 0,
      0x1e421e8bc5f8278149d3539d6a06b05e578cce9da8a8dcefed198effaa38a44c, 2,
      0x4a0e29091d04f3a2512a99707942806df700dffb5dd417ef66f06deff45a0f3e, 1,
      0x500536378c67b1f878512b5f0fd97c460dcddb8c371ef79466bdc1cb68f98496, 1,
      0x7574c298b7099879ee094172a4848666f5824ea0650a7edbee7904ebb9fc0ecb, 0,
      0x25077c77a63c5734190e06c2f38e153ada52c9208983a49ec3e83e39ca650d0d)
    ensures EightP(0x25077c77a63c5734190e06c2f38e153ada52c9208983a49ec3e83e39ca650d0d, 3,
      0x114d3e248b45d44833db693de98b76888ed051bf463639f5f1785c20c1f0a438, 3,
      0x9dca537312b26533047d953633dca7a91c0f04f0aeee4e973b78ab4466f3eb3, 3,
      0x493d6b98aa0944d29cad43bea9e0d8b0598e41c2b884164b8a24c220449e5276, 1,
      0x2f2c0700b5ace219f2c2ededad72909afce5c23db6dab1cd8dfc06d451a8a2d6, 0,
      0x56a706447989e1133d5a4b694e77dc0fb5766dae4ca20bad5ac7428ce030ba65, 0,
      0x6d5235f572ce77058749b94ef0c65dc3dfddff52b85d31f80ff625db5eeef237, 3,
      0x1a245b78e735dc6db22359b56fc0657c697c7bc1edb17390a02ace727cb31e69, 3,
      0x3bf138eed82383628d06fa54a0db605ea30c9ea47cf01f612f808a63836aaf0f)
  {
  }

  lemma StepsPFrom4()
    ensures EightP(0x3bf138eed82383628d06fa54a0db605ea30c9ea47cf01f612f808a63836aaf0f, 0,
      0x2088a85bfeed3aa50710c8f24742a0bad652ba7e4c2bbb0578cd3ed942694a2b, 3,
      0x55daaa50d60c804e5421d21a94c92f1f577d26c15b3e7f8a6bb0ff86ea0cead0, 0,
      0x408bb1af6f2e580b0e1b2810ab3dd9cbf8766a309398165714a58144c3f56e75, 2,
      0x5e8329a140ea37ee47a4a37c99bc1fd2821d4f2367dd59405b6f1973213de519, 3,
      0x754ac517bd092457ce10108c16c6223259a1257dd0e2e64f1e22d0273e82e0b3, 0,
      0x6a6071a7dcea1af2065a435440a0f69f10605d6e4fbc49a74fbe68c0520e6df9, 0,
      0x1e660ac6a55e6e3111a1534f02b14663794ff79244fb34cedf622299d628ac38, 2,
      0x6aa84cad8b1fcf9ce7e801991fd5b209d363e86c9642215c209aa1c39a897867)
    ensures EightP(0x6aa84cad8b1fcf9ce7e801991fd5b209d363e86c9642215c209aa1c39a897867, 3,
      0x43c6fef02932c3236c7e9907af92eafe172b4604487b0651fd6915a7231849b0, 0,
      0x4fd6c4a4f2ab92028ad7e8e7c28dbbb894eb8fb08a50e4f99399372c6bcadb5c, 3,
      0x193251436eb93ac1cfc8403d7baacc629c0175122409414a15f8c16bb66c4cf6, 0,
      0x20fde7fc9957dd11a867a2c4b307c7c91963ea072b897998cdb7069db572793d, 2,
      0x77f2a173cf55d4b9ff2ac78dfc52f7e645f2ace723dacda9c9a5f14d98146ff0, 2,
      0x4f08b10694f8bd12f4b0f81c2b354b0ee9d959e4d3f2528c310a68a5d5b886b0, 2,
      0x1913b430d3bed47d6d434456d366c498bab6e145b8b4c87ec3075d987c028e23, 3,
      0x4b191808ab372ce2cc297f1919b83bc36189b1c7cb0e47651e7ff418fec054c2)
    ensures EightP(0x4b191808ab372ce2cc297f1919b83bc36189b1c7cb0e47651e7ff418fec054c2, 2,
      0x7e93f600f4774362015c07919c713bb4cfd6f86e81792c138c2af0f45d4427c4, 2,
      0x22d3d7c0e7638a7aec46a134db3a7af80177b97591d063ff579fab1de267a0bb, 2,
      0x1f10acfb28274da7536bad3457258530786d3e2edf8c74b3192a0e1464870211, 3,
      0x18df923b16e1d9a8190866beb24af76fca4d54a0c268e0301713a447ddc06847, 2,
      0x6151b149cff4374d6120f3ef27ce91bac72a68f766211f58f2fe8a697fb04681, 0,
      0xef4e8a6b5335e718464d99ea63238c1f431cc85f2ce304b9955ecf813853b00, 1,
      0x6e5dcad2340ddac489f80bb37f06803d9f51c9a766eb8590e947bbb60c272e9f, 2,
      0x5e82d966a2c5f67ba7fe7693bbb489b534ea6d38c80586ce11a13ca0ce48efb2)
    ensures EightP(0x5e82d966a2c5f67ba7fe7693bbb489b534ea6d38c80586ce11a13ca0ce48efb2, 1,
      0x24e7a8ba29a168e2db6d281f3989101cf9e0d4b308df28c3cc2510b5a8ceccfb, 0,
      0x3fb7fda957cff97a18f25d50d2025558a4af39169f1c0afe615a2c2e8be44016, 3,
      0x7db2f9453d84c6f927aaa3090cd9020efb0b26e8a639926ac980d3f082fdaca7, 1,
      0x63df8b8b009cbb0d205c8d183c1a6f6dc520057264cdded5529648be07ca1eb0, 2,
      0x18cc47d910ade64b9219115ac8c50c3f71135f0f96896774123cf74de689714c, 3,
      0x6c451b1072e1ce9b73ceb26bc59841272018af8977dc6b01b68dfa3897f25ac7, 3,
      0x4cc31e3943ebef64c57391b639aba04cd7b1e54f360c67137dcc1f74cc454d04, 2,
      0x74f68d68b39d69a0f68f599db6b855424208d28e995d11d5756ea63c3ec92f6c)
  {
  }

  lemma StepsPFrom8()
    ensures EightP(0x74f68d68b39d69a0f68f599db6b855424208d28e995d11d5756ea63c3ec92f6c, 3,
      0x52b215f13f712f22de4a7b90ff33536c6d44dd7484b816e39dbb63a00feab0d0, 0,
      0x3662fbf29d4a5453e74ffa5345b5ccb54c96630512014d4791418e2052a8aa5d, 3,
      0x4088477613f186dfa28118b4b552fbe04374ed8cf9ab6578f5e44d2bbec921c3, 1,
      0x24ebd37bede6161f98e5338c4fcf9480b45387d50a5a835260d749d7577b4834, 2,
      0x3717d7adf44608679bca56c5cc6a3ea886410c981ede811a7ddb7d26c02b1211, 1,
      0x54f8b7942b81e1492c058c28b98e5ce407dc96ee69c6cd117ecc30a086e95a34, 2,
      0x12aeff289d2a226b619fc1a40761c2f0d84af16b250312651854fbff6ca6a292, 1,
      0x6bfea887c0d17ebe9a3e01c62fd60a74a2828a3829dec6f52f99de4497e9476b)
    ensures EightP(0x6bfea887c0d17ebe9a3e01c62fd60a74a2828a3829dec6f52f99de4497e9476b, 0,
      0x5cb23a07f0029392f6e377875706d02f20992fdf2a2241e0b4fdb4585212bce7, 1,
      0x4b9b3aee398a4a06d8a602a38cbdef2bc8f3e4042609394bd058633d40bd95a5, 1,
      0x450c3d6ebb032a568b1e4dbeeba888336b24004e3aaa45724539a8507a8d8d59, 0,
      0xb972427e4c493c9f1c0b75916300016d8512f160839cce8e768552b972af872, 1,
      0x3b9a548b43f6700f271b7be5cfd33c678e620578045ba96394b984de3a05ec29, 0,
      0x6049bb9862b7dad5420b469e9c5f643a3d67fb1933538f3a9ac6c2bb90c260b6, 1,
      0xef94f35f51bf42a9dee5066580a57e58ed62df88c02f1d41a8c4ecdf5a1e0d, 2,
      0x16f864faf980e62709a036cc1ef05b5d2353e5ce38525fcb8468fdd7d31741)
    ensures EightP(0x16f864faf980e62709a036cc1ef05b5d2353e5ce38525fcb8468fdd7d31741, 1,
      0x4de7c96b42c975cb5afc19307ad82e95c1591da7d345d784571a32ed092ddd05, 3,
      0x4484b19a42eff27a7e671501d37aef82816a7f804fb65b719464997286a045bf, 2,
      0x483aa37005b23ce542f013a0414090aabce56c357076706553f90ebabd10a55a, 1,
      0x49d3cee0616c4f80860c8a33cfecc88934280cfd1cfa1f03468160c400753b5b, 3,
      0x1b3fbbbf8d1b6f721ce51e64d27d7cb699998c9d6b94d12b8b7654a6c1a050b4, 0,
      0x666085ad24b2f2dda30823d0e147b54d255a48d44dca7879c43a4beb6437f04, 0,
      0x2a5ea2c514438720624e33dedaa9fbe605e55ace3a1e9aac58494d9b1fd482cc, 1,
      0x46ed53cfba60f4f123fcf9167791b6fe6e89ac81de184acc8b01676d8602e87e)
    ensures EightP(0x46ed53cfba60f4f123fcf9167791b6fe6e89ac81de184acc8b01676d8602e87e, 2,
      0x647c8a8d2eb8ad1c6f00da3c745146835b5c42ff2de64d7c2345defe1d68f06e, 2,
      0x1a5e991d73d3678ea6e26275de04ad788e5500fe949fa7f0d93072399a5ffcc8, 3,
      0x55ef73c9a01162bb91dd8fa2c7dbb7dc05637767a4cfd791003a8d7569970e17, 1,
      0x4eef496a353c920841584ba717b759e41990d6afc4558ac09672f697d06b4e06, 3,
      0x77ff45096182b3eba7003bbcc5fa572e65e446d3460dee67b76494941e30d5cb, 3,
      0x48d54ca37121a3573f69d36365e95ba3cd532b9364681291980f3723f1252ff6, 2,
      0x34965e54e00f2b9726b8e0161a30595a56b8df097bd83e1b2c4afe4ba70dd15f, 0,
      0x13ab3e86fc4cd5783ec28221bf1d290e75df6129cfb4a0cfcf6e85a75779de75)
  {
  }

  lemma StepsPFrom12()
    ensures EightP(0x13ab3e86fc4cd5783ec28221bf1d290e75df6129cfb4a0cfcf6e85a75779de75, 0,
      0x21134695adb30e4f572ae6b7a46ca2ea787d2b502887c9dd6618a850549d5da, 0,
      0x139ea97ea9aaa3c6d9047451ae77412365bb25357b2142016d72a7fdebc86e71, 1,
      0x750173818765435ffda9f0286d98bfbafe9b059b0d7172fa4ff24e5a9aeb59fe, 0,
      0x5e0c9d13f09097a57f414fa5a04d4f8a4dec605213e9c732df7c1cd2d4d0b1fb, 2,
      0xc4819ecd97df27be252690f4294557419be5bd641244614449f73c065bbe038, 0,
      0x22e7a766b1b29885e4a84b8b8b3e80e04db4ce86c429be706d7d58f4b1277bd3, 2,
      0x195f0e3e05523407798d1eb49e527df022b9eaf5009f3526a7d130d7225c2e86, 1,
      0x8fbbfbd5999f62ccacad610605d92ea3a88fe24684e5edad48d1dd27082bbe7)
    ensures EightP(0x8fbbfbd5999f62ccacad610605d92ea3a88fe24684e5edad48d1dd27082bbe7, 2,
      0x6384f16fd1d5093249eee25780b6782c711954d53ae511dc669f643f15b10d11, 0,
      0xd826b69a278e8d0c716157124d06fea88ad392e27133ed4ba3a93c9ea0ad0cd, 3,
      0x4062794e6c12409f7f2c702783b19751ce66a7219c04f00500486eae33f15b6c, 3,
      0x386df219df30a77a13467914d7327fdc783be747894795d8bb59f182352fd0ed, 2,
      0x7d7efe3e0e1199b104d853caa3c97f3af088dca01b2b86d3eec324ecf126384e, 3,
      0xaf3f4a4de26aa3ea9b5d6d3aee0b83d07725020b5af3b4cd737f091317d5e9b, 0,
      0x779804032778e125b8eb79b772d9d7b3e73093f720b7a759309e5e4c8d850ed8, 2,
      0x2abd98f7f850da0dee194a1456a7a91096c04a31e0cff3ad732ace86915913fe)
    ensures EightP(0x2abd98f7f850da0dee194a1456a7a91096c04a31e0cff3ad732ace86915913fe, 0,
      0x3882b53e39915aaf95431c9b8b22fc6fd7560cf728094b67374aab3af58ff0db, 0,
      0x4cdd9483e1c4176679fe1de3f96ec39c89a42fade04cd1fe44968cf088c95333, 1,
      0x7100a8c206c366f15fa159445fd860cba9a391a8cdbe9a508b39616ffaba5ce, 0,
      0x2aeee574e88f830756938e64f44f4c344bce1b27cc1b92306eb01732303e843b, 0,
      0x47006af951dcc9564c5306caeeb65ad2387deb17740fee8e417a965e14051c10, 2,
      0x5e85d30308438f95d12fcbe6654a93c74655ff1c3498061183dbff28cc3725e5, 2,
      0x6843b258f66bf8fe8106342a85fdfcc8607b2d81e5fed66b9e82316ebf66e94, 3,
      0x2b8324804fc1df0b2b4d00993dfbd7a72f431806ad2fe478c4ee1b274a0ea0b0)
  {
  }

  lemma PowerP()
    ensures IsPower(Field.P, B, P4, 0x2b8324804fc1df0b2b4d00993dfbd7a72f431806ad2fe478c4ee1b274a0ea0b0)
  {
    hide IsPower, EightP;
    ZerothPower(Field.P, B);
    StepsPFrom0();
    StepsPFrom4();
    StepsPFrom8();
    StepsPFrom12();
    EightPOn(0x0);
    EightPOn(0xaba);
    EightPOn(0xabaf8c6);
    EightPOn(0xabaf8c6b094);
    EightPOn(0xabaf8c6b094fd0f);
    EightPOn(0xabaf8c6b094fd0f32c2);
    EightPOn(0xabaf8c6b094fd0f32c2ccab);
    EightPOn(0xabaf8c6b094fd0f32c2ccabab86);
    EightPOn(0xabaf8c6b094fd0f32c2ccabab864dbe);
    EightPOn(0xabaf8c6b094fd0f32c2ccabab864dbecd99);
    EightPOn(0xabaf8c6b094fd0f32c2ccabab864dbecd991446);
    EightPOn(0xabaf8c6b094fd0f32c2ccabab864dbecd99144679c1);
    EightPOn(0xabaf8c6b094fd0f32c2ccabab864dbecd99144679c1adf8);
    EightPOn(0xabaf8c6b094fd0f32c2ccabab864dbecd99144679c1adf80489);
    EightPOn(0xabaf8c6b094fd0f32c2ccabab864dbecd99144679c1adf804898fb2);
  }

  // ----- the field prime -----

  lemma Prime0()
    ensures IsPrime(P0)
  {
    forall d | 2 <= d < P0 ensures P0 % d != 0 {
    }
  }

  const QUARTIC: nat := 0xf1ba0c491eeef83c49fc1b744331bb096d4893142c187431f7b03e61a75a49

  lemma QuarticInverse()
    ensures Same((QUARTIC - 1) * 0x7acaff384090e983b641a51e1df0807078e467d06ab8164555f0f7fd51653bdc, 1, Field.P) && Field.P - 1 == P4 * 781764
    ensures 781764 / P4 == 0 && 781764 % P4 == 781764
  {
    assert Same(0xf1ba0c491eeef83c49fc1b744331bb096d4893142c187431f7b03e61a75a48 * 0x7acaff384090e983b641a51e1df0807078e467d06ab8164555f0f7fd51653bdc, 1, 0x7fffffffffffffffffffffffffffffffffffffffffffffffffffffffffffffed);
  }

  /** B to the power P4 is a root of -1, so the fourth power of B has order P4. */
  lemma QuarticPower()
    requires IsPower(Field.P, B, P4, 0x2b8324804fc1df0b2b4d00993dfbd7a72f431806ad2fe478c4ee1b274a0ea0b0)
    ensures Same(Pow(QUARTIC, P4), 1, Field.P)
  {
    RootOfUnity();
    hide Same, Pow;
    PowSame(Pow(B, P4), 0x2b8324804fc1df0b2b4d00993dfbd7a72f431806ad2fe478c4ee1b274a0ea0b0, 4, Field.P);
    PowTimes(B, P4, 4);
    PowTimes(B, 4, P4);
    PowSame(Pow(B, 4), QUARTIC, P4, Field.P);
    Symmetric(Pow(Pow(B, 4), P4), Pow(QUARTIC, P4), Field.P);
    assert P4 * 4 == 4 * P4;
    Transitive(Pow(QUARTIC, P4), Pow(B, 4 * P4), Pow(0x2b8324804fc1df0b2b4d00993dfbd7a72f431806ad2fe478c4ee1b274a0ea0b0, 4), Field.P);
    Transitive(Pow(QUARTIC, P4), Pow(0x2b8324804fc1df0b2b4d00993dfbd7a72f431806ad2fe478c4ee1b274a0ea0b0, 4), 1, Field.P);
  }

  lemma RootOfUnity()
    ensures Same(Pow(0x2b8324804fc1df0b2b4d00993dfbd7a72f431806ad2fe478c4ee1b274a0ea0b0, 4), 1, Field.P) && Same(Pow(B, 4), QUARTIC, Field.P)
  {
    FourthPower(0x2b8324804fc1df0b2b4d00993dfbd7a72f431806ad2fe478c4ee1b274a0ea0b0);
    FourthPower(B);
    hide Pow;
    assert Same(0x2b8324804fc1df0b2b4d00993dfbd7a72f431806ad2fe478c4ee1b274a0ea0b0 * 0x2b8324804fc1df0b2b4d00993dfbd7a72f431806ad2fe478c4ee1b274a0ea0b0 * (0x2b8324804fc1df0b2b4d00993dfbd7a72f431806ad2fe478c4ee1b274a0ea0b0 * 0x2b8324804fc1df0b2b4d00993dfbd7a72f431806ad2fe478c4ee1b274a0ea0b0), 1, 0x7fffffffffffffffffffffffffffffffffffffffffffffffffffffffffffffed);
    assert Same(0xf10bda72989665e25b2f91d26cbc5d4ab0ae74eabcd6acd2f1164aa01ba7316 * 0xf10bda72989665e25b2f91d26cbc5d4ab0ae74eabcd6acd2f1164aa01ba7316 * (0xf10bda72989665e25b2f91d26cbc5d4ab0ae74eabcd6acd2f1164aa01ba7316 * 0xf10bda72989665e25b2f91d26cbc5d4ab0ae74eabcd6acd2f1164aa01ba7316), 0xf1ba0c491eeef83c49fc1b744331bb096d4893142c187431f7b03e61a75a49, 0x7fffffffffffffffffffffffffffffffffffffffffffffffffffffffffffffed);
  }

  lemma FourthPower(b: nat)
    ensures Pow(b, 4) == b * b * (b * b)
  {
    SmallPowers(b);
    PowAdd(b, 2, 2);
  }

  lemma FieldIsPrime()
    ensures IsPrime(Field.P)
  {
    Prime4();
    PowerP();
    QuarticInverse();
    hide IsPrime, Same, Pow;
    QuarticPower();
    ProvedPrime(Field.P, P4, 781764, QUARTIC, 0x7acaff384090e983b641a51e1df0807078e467d06ab8164555f0f7fd51653bdc);
  }

  // ----- d is not a square -----

  const ROOT_OF_BD: nat := 0x1031e2071cc230d6fdc7addbf3974516610bc8938463dfe9c4fc3ed3da85aff4

  lemma NumbersOfD()
    ensures Same(ROOT_OF_BD * ROOT_OF_BD, B * Field.D, Field.P) && !Same(B, 0, Field.P) && !Same(Field.D, 0, Field.P)
    ensures Same(Pow(0x2b8324804fc1df0b2b4d00993dfbd7a72f431806ad2fe478c4ee1b274a0ea0b0, 2), Field.P - 1, Field.P) && Same(Pow(Field.P - 1, 2), 1, Field.P)
    ensures Field.P - 1 == 2 * (P4 * 390882) && !Same(Field.P - 1, 1, Field.P)
  {
    SmallPowers(0x2b8324804fc1df0b2b4d00993dfbd7a72f431806ad2fe478c4ee1b274a0ea0b0);
    SmallPowers(Field.P - 1);
    hide Pow;
    assert Same(0x1031e2071cc230d6fdc7addbf3974516610bc8938463dfe9c4fc3ed3da85aff4 * 0x1031e2071cc230d6fdc7addbf3974516610bc8938463dfe9c4fc3ed3da85aff4, 0xf10bda72989665e25b2f91d26cbc5d4ab0ae74eabcd6acd2f1164aa01ba7316 * 0x52036cee2b6ffe738cc740797779e89800700a4d4141d8ab75eb4dca135978a3, 0x7fffffffffffffffffffffffffffffffffffffffffffffffffffffffffffffed);
    assert Same(0x2b8324804fc1df0b2b4d00993dfbd7a72f431806ad2fe478c4ee1b274a0ea0b0 * 0x2b8324804fc1df0b2b4d00993dfbd7a72f431806ad2fe478c4ee1b274a0ea0b0, 0x7fffffffffffffffffffffffffffffffffffffffffffffffffffffffffffffec, 0x7fffffffffffffffffffffffffffffffffffffffffffffffffffffffffffffed);
    assert Same(0x7fffffffffffffffffffffffffffffffffffffffffffffffffffffffffffffec * 0x7fffffffffffffffffffffffffffffffffffffffffffffffffffffffffffffec, 1, 0x7fffffffffffffffffffffffffffffffffffffffffffffffffffffffffffffed);
  }

  /** B has no root y: y to the power p - 1 would be -1. */
  lemma BIsNoSquare(y: nat)
    ensures !Same(y * y, B, Field.P)
  {
    FieldIsPrime();
    PowerP();
    NumbersOfD();
    hide IsPrime, Same, Pow, B, P4;
    var p, i := Field.P, 0x2b8324804fc1df0b2b4d00993dfbd7a72f431806ad2fe478c4ee1b274a0ea0b0;
    if Same(y * y, B, p) {
      if Same(y, 0, p) {
        Products(y, 0, y, 0, p);
        Symmetric(y * y, B, p);
        Transitive(B, y * y, 0, p);
      }
      SquarePowers(y, P4 * 390882);
      PowSame(y * y, B, P4 * 390882, p);
      PowTimes(B, P4, 390882);
      PowSame(Pow(B, P4), i, 390882, p);
      MinusOnePower(i);
      Transitive(Pow(y, p - 1), Pow(B, P4 * 390882), Pow(i, 390882), p);
      Transitive(Pow(y, p - 1), Pow(i, 390882), p - 1, p);
      Fermat(y, p);
      Symmetric(Pow(y, p - 1), p - 1, p);
      Transitive(p - 1, Pow(y, p - 1), 1, p);
    }
  }

  lemma SquarePowers(y: nat, e: nat)
    ensures y * y >= 0 && Pow(y, 2 * e) == Pow(y * y, e)
  {
    MulLe(y, 0, y);
    SmallPowers(y);
    PowTimes(y, 2, e);
  }

  /** A root of -1 to the power 390882 = 2 * 195441 is -1. */
  lemma MinusOnePower(i: nat)
    requires Same(Pow(i, 2), Field.P - 1, Field.P) && Same(Pow(Field.P - 1, 2), 1, Field.P)
    ensures Same(Pow(i, 390882), Field.P - 1, Field.P)
  {
    hide Same, Pow;
    var m: nat := Field.P - 1;
    PowTimes(i, 2, 195441);
    PowSame(Pow(i, 2), m, 195441, Field.P);
    RaisedTo(m, 2, 97720, Field.P);
    PowAdd(m, 195440, 1);
    SmallPowers(m);
    Reflexive(m, Field.P);
    Products(Pow(m, 195440), 1, m, m, Field.P);
    Transitive(Pow(i, 390882), Pow(m, 195441), m, Field.P);
  }

  /** With a root of d the quotient of roots would be a root of B. */
  lemma DIsNoSquare(w: int)
    ensures !Same(w * w, Field.D, Field.P)
  {
    FieldIsPrime();
    NumbersOfD();
    hide IsPrime, Same, Pow, B;
    var p, z := Field.P, ROOT_OF_BD;
    if Same(w * w, Field.D, p) {
      if Same(w, 0, p) {
        Products(w, 0, w, 0, p);
        Symmetric(w * w, Field.D, p);
        Transitive(Field.D, w * w, 0, p);
      }
      var c := Inverse(w, p);
      Products(w * c, 1, w * c, 1, p);
      Reflexive(B, p);
      Symmetric(w * w, Field.D, p);
      Products(B, B, Field.D, w * w, p);
      Transitive(z * z, B * Field.D, B * (w * w), p);
      Reflexive(c * c, p);
      Products(z * z, B * (w * w), c * c, c * c, p);
      Products(B, B, w * c * (w * c), 1 * 1, p);
      Quotients(z, c, w, B);
      Transitive(z * c * (z * c), B * (w * c * (w * c)), B, p);
      MulLe(z, 0, c);
      BIsNoSquare(z * c);
    }
  }

  lemma Quotients(z: int, c: int, w: int, b: int)
    ensures z * z * (c * c) == z * c * (z * c) && b * (w * w) * (c * c) == b * (w * c * (w * c)) && b * (1 * 1) == b
  {
    assert w * w * (c * c) == w * c * (w * c);
  }
}
