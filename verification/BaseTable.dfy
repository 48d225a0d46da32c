/**
 * The base-point table (ed25519_basepoint_table.v): its constants lie on the curve, and the entries the
 * joint loop selects are the odd multiples of the first one.
 */
module BaseTable {
  import opened Field
  import opened Group
  import opened Verdict
  import Curve

  const X1: Fe := 0x216936d3cd6e53fec0a4e231fdd6dc5c692cc7609525a7b2c9562d608f25d51a
  const Y1: Fe := 0x6666666666666666666666666666666666666666666666666666666666666658
  const T1: Fe := 0x67875f0fd78b766566ea4e8e64abe37d20f09f80775152f56dde8ab3a5b7dda3
  const X2: Fe := 0x36ab384c9f5a046c3d043b7d1833e7ac080d8e4515d7a45f83c5a14e2843ce0e
  const Y2: Fe := 0x2260cdf3092329c21da25ee8c9a21f5697390f51643851560e5f46ae6af8a3c9
  const T2: Fe := 0x2498a7850b2f68dc1de55f087303b4135d79acc9c1f72402b71a3f556d69b401
  const X3: Fe := 0x67ae9c4a22928f491ff4ae743edac83a6343981981624886ac62485fd3f8e25c
  const Y3: Fe := 0x1267b1d177ee69aba126a18e60269ef79f16ec176724030402c3684878f5b4d4
  const T3: Fe := 0x2a4d025cb1dd9510ebef3783adb915275c27358bfb16fc4acdf908fa78b3a41a
  const X4: Fe := 0x203da8db56cff1468325d4b87a3520f91a739ec193ce1547493aa657c4c9f870
  const Y4: Fe := 0x47d0e827cb1595e1470eb88580d5716c4cf22832ea2f0ff0df38ab61ca32112f
  const T4: Fe := 0x22783cd8d873260c7214ba6ac67c29607195e31eb6dd07ca5f8f22f6728a1358
  const X5: Fe := 0x49fda73eade3587bfcef7cf7d12da5de5c2819f93e1be1a591409cc0322ef233
  const Y5: Fe := 0x5f4825b298feae6fe02c6e148992466631282eca89430b5d10d21f83d676c8ed
  const T5: Fe := 0x745c562c9c593d4c3160ea508736c7f9afb94e85000926bf641950bcf3e801d0
  const X6: Fe := 0x4c9797ba7a45601c62aeacc0dd0a29bea1e599826c7b4427783a741a7dcbf23d
  const Y6: Fe := 0x054de3fc2886d8a11db709a7fd4f7d77f9417c06944d6b60c1d27ad0f9497ef4
  const T6: Fe := 0x3c32efd109aa604f82855a994fe7dcc40baf92147c7dc89bc7ced6c8b44ef1d2
  const X7: Fe := 0x14568685fcf4bd4ee9e3ee194b1d810783e809f3bbf1ce955855981af50e4107
  const Y7: Fe := 0x31c563e32b47d52f87ce6468dd36ad41f0882b46f7abf23d12c4c4b59f4062b8
  const T7: Fe := 0x119e77b11d165e1b9be82dc589d5bab45294632a1e9aa4e410bd45565587ed1b
  const X8: Fe := 0x6742e15f97d771b642862d5cf84ecf93eb3ac67b80698b993b87fdbc08a584c8
  const Y8: Fe := 0x21d30600c9e573796ead6f09668af38f81783cfc621ee4931e2f5ba9fc37b9b4
  const T8: Fe := 0x2c4f59ecedf7eae11608c29b38b3d99345f0ce6d344c2bf56fbef41ad41a51bf
  const X9: Fe := 0x357cc970c80071651bf336e06f9422b886d80e5c2e4e0294d3e023065185715c
  const Y9: Fe := 0x7f3d23c2c2dd0df4b2befce956f2d2fd1f789013236e4430c74e44845522f1c0
  const T9: Fe := 0x5c70fc48ea87cbf9db6676adf747cd7417b3d4a0f770327e5c3b386f88b2f465
  const X10: Fe := 0x602c797e30ca6d754470b60ed2bc8677207e8e4ed836f81444951f224877f94f
  const Y10: Fe := 0x637ffcaa7a1b2477c8e44d54c898bfcf2576a6853de0e843ba8874b06ae87b2c
  const T10: Fe := 0x36e05f326673529288bfd10309b4577f74f5a9f4b3b9252543e74c95035bc63e
  const X11: Fe := 0x14e528b1154be417b6cf078dd6712438d381a5b2c593d552ff2fd2c1207cf3cb
  const Y11: Fe := 0x2d9082313f21ab975a6f7ce340ff0fce1258591c3c9c58d4308f2dc36a033713
  const T11: Fe := 0x5ae6a565800f28a239caa6bef216adbf590001dde18fc837eb85cf2edb5beed4
  const X12: Fe := 0x4719e17e016e5d355ecf70e00ca249db3295bf2385c13b42ae62fe6678f0902d
  const Y12: Fe := 0x4070ce608bce8022e71d6c4e637825b856487eb45273966733d281dc2e2de4f9
  const T12: Fe := 0x2b344e203a4858a12067d3a831cd006f0f1ef0c48c5b13abd5ecc3128e4b1ccb
  const X13: Fe := 0x107427e0d5f366ccdb33adf0282d304f8843e3e88d22b7b83780e073b7c05fed
  const Y13: Fe := 0x12dbb00ded538b7478466022d2da89b83740cfb2289a272387efe1aeea401f80
  const T13: Fe := 0x412806b917be6460c5c0dd61cd5623385b14aa51eb2e8efc522cdccde8de2f53
  const X14: Fe := 0x205f3b42f5884aaf048c7a895ccabb15d8dee6d83e39832aa38e7353b58515b9
  const Y14: Fe := 0x4e50256f50c4cb8115bad17acbb702bfa74898e819b6265c8369fd98899c2839
  const T14: Fe := 0x66432d1463a87e0f8ea60abf3cbfe47971e7437fe66445e089133d2ca271c2e0
  const X15: Fe := 0x4f162deaec2ec435dc5ac6f95d20419ed9631374770189cb90617f3e66a18dc1
  const Y15: Fe := 0x12cbfb2d04ff22f55162f70164d29331ace5af18a19a9aa1946d4cc4ad2e5cdf
  const T15: Fe := 0x5e33f00e36b77491ab24fd2241760de2fa63b68fe40ae5f5140d7f335c92bf29

  /** The output for a selector; 0 selects nothing. */
  function Entry(selector: nat): Curve.Point {
    match selector
    case 1 => Curve.Point(X1, Y1, 1, T1)
    case 2 => Curve.Point(X2, Y2, 1, T2)
    case 3 => Curve.Point(X3, Y3, 1, T3)
    case 4 => Curve.Point(X4, Y4, 1, T4)
    case 5 => Curve.Point(X5, Y5, 1, T5)
    case 6 => Curve.Point(X6, Y6, 1, T6)
    case 7 => Curve.Point(X7, Y7, 1, T7)
    case 8 => Curve.Point(X8, Y8, 1, T8)
    case 9 => Curve.Point(X9, Y9, 1, T9)
    case 10 => Curve.Point(X10, Y10, 1, T10)
    case 11 => Curve.Point(X11, Y11, 1, T11)
    case 12 => Curve.Point(X12, Y12, 1, T12)
    case 13 => Curve.Point(X13, Y13, 1, T13)
    case 14 => Curve.Point(X14, Y14, 1, T14)
    case 15 => Curve.Point(X15, Y15, 1, T15)
    case _ => Curve.Point(0, 0, 0, 0)
  }

  function Table(): seq<Curve.Point> {
    seq(16, j requires 0 <= j < 16 => Entry(j))
  }

  // ----- checks on numbers, where the prime and d are written out -----

  predicate IsZero(n: int) {
    n % 0x7fff_ffff_ffff_ffff_ffff_ffff_ffff_ffff_ffff_ffff_ffff_ffff_ffff_ffff_ffff_ffed == 0
  }

  predicate IsAffine(x: int, y: int, t: int) {
    && IsZero(x * y - t)
    && IsZero(y * y - x * x - (1 + 0x52036cee2b6ffe738cc740797779e89800700a4d4141d8ab75eb4dca135978a3 * (t * t)))
  }

  /** (x3, y3) satisfies the affine addition law for (x1, y1) and (x2, y2). */
  predicate IsSum(x1: int, y1: int, t1: int, x2: int, y2: int, t2: int, x3: int, y3: int) {
    && IsZero(x1 * y2 + x2 * y1 - x3 * (1 + 0x52036cee2b6ffe738cc740797779e89800700a4d4141d8ab75eb4dca135978a3 * (t1 * t2)))
    && IsZero(y1 * y2 + x1 * x2 - y3 * (1 - 0x52036cee2b6ffe738cc740797779e89800700a4d4141d8ab75eb4dca135978a3 * (t1 * t2)))
  }

  lemma Affine1()
    ensures IsAffine(X1, Y1, T1)
  {
  }

  lemma Affine2()
    ensures IsAffine(X2, Y2, T2)
  {
  }

  lemma Affine3()
    ensures IsAffine(X3, Y3, T3)
  {
  }

  lemma Affine5()
    ensures IsAffine(X5, Y5, T5)
  {
  }

  lemma Affine7()
    ensures IsAffine(X7, Y7, T7)
  {
  }

  lemma Sum2()
    ensures IsSum(X1, Y1, T1, X1, Y1, T1, X2, Y2)
  {
  }

  lemma Sum3()
    ensures IsSum(X2, Y2, T2, X1, Y1, T1, X3, Y3)
  {
  }

  lemma Sum5()
    ensures IsSum(X3, Y3, T3, X2, Y2, T2, X5, Y5)
  {
  }

  lemma Sum7()
    ensures IsSum(X5, Y5, T5, X2, Y2, T2, X7, Y7)
  {
  }

  /** Entry 1 is the base point of section 5.1 of RFC 8032: y = 4/5, and the even one of the two x. */
  lemma BasePointIsStandard()
    ensures Congruent(5 * Entry(1).y, 4) && Entry(1).x % 2 == 0 && Entry(1).z == 1
  {
    CongruentIff(5 * Entry(1).y, 4);
  }

  // ----- what they say about points -----

  lemma AffineIsGood(x: Fe, y: Fe, t: Fe)
    requires InField(x) && InField(y) && InField(t) && IsAffine(x, y, t)
    ensures Good(Curve.Point(x, y, 1, t))
  {
    AffineCongruences(x, y, t);
    hide Congruent, D;
  }

  lemma AffineCongruences(x: int, y: int, t: int)
    requires IsAffine(x, y, t)
    ensures Congruent(x * y, 1 * t) && Congruent(y * y - x * x, 1 * 1 + D * (t * t))
  {
    hide IsZero, Congruent;
    ZeroCongruent(x * y, t);
    ZeroCongruent(y * y - x * x, 1 + D * (t * t));
  }

  lemma ZeroCongruent(n: int, m: int)
    requires IsZero(n - m)
    ensures Congruent(n, m)
  {
    CongruentIff(n, m);
  }

  lemma SumCongruences(p: Curve.Point, q: Curve.Point, x: int, y: int)
    requires p.z == 1 && q.z == 1 && IsSum(p.x, p.y, p.t, q.x, q.y, q.t, x, y)
    ensures Congruent(Curve.AddE(p, q), x * Curve.AddG(p, q)) && Congruent(Curve.AddH(p, q), y * Curve.AddF(p, q))
  {
    hide IsZero, Congruent;
    ZeroCongruent(Curve.AddE(p, q), x * Curve.AddG(p, q));
    ZeroCongruent(Curve.AddH(p, q), y * Curve.AddF(p, q));
  }

  /** An entry that satisfies the affine law is the sum the datapath computes. */
  lemma SumIsEntry(p: Curve.Point, q: Curve.Point, r: Curve.Point)
    requires Curve.Reduced(p) && Curve.Reduced(q) && p.z == 1 && q.z == 1 && r.z == 1
    requires IsSum(p.x, p.y, p.t, q.x, q.y, q.t, r.x, r.y)
    ensures Curve.SamePoint(Curve.Add(p, q), r)
  {
    SumCongruences(p, q, r.x, r.y);
    hide Congruent, IsSum, Curve.Add, Curve.AddE, Curve.AddF, Curve.AddG, Curve.AddH, Curve.Complete, InField, D;
    var e, f, g, h := Curve.AddRepresents(p, q);
    var x, y, u, v := Curve.AddE(p, q), Curve.AddF(p, q), Curve.AddG(p, q), Curve.AddH(p, q);
    Curve.CompleteRepresents(e, 2 * x, f, 2 * y, g, 2 * u, h, 2 * v);
    var s := Curve.Add(p, q);
    Ratio(s.x, 2 * x, 2 * y, s.z, 2 * u, r.x, x, u);
    assert 2 * u * (2 * v) == 2 * v * (2 * u) && 2 * y * (2 * u) == 2 * u * (2 * y);
    Ratio(s.y, 2 * v, 2 * u, s.z, 2 * y, r.y, v, y);
  }

  /** n = 2a f and z = f 2b with a = r b make n = r z. */
  lemma Ratio(n: int, a2: int, f: int, z: int, b2: int, r: int, a: int, b: int)
    requires Congruent(n, a2 * f) && Congruent(z, f * b2) && Congruent(a, r * b) && a2 == 2 * a && b2 == 2 * b
    ensures Congruent(n * 1, r * z)
  {
    hide Congruent;
    Reflexive(r);
    Reflexive(2 * f);
    Products(2 * f, 2 * f, a, r * b);
    Products(r, r, z, f * b2);
    Symmetric(r * z, r * (f * b2));
    assert a2 * f == 2 * f * a;
    assert 2 * f * (r * b) == r * (f * b2);
    Transitive(n, 2 * f * a, r * (f * b2));
    Transitive(n, r * (f * b2), r * z);
  }

  // ----- the table -----

  lemma EntriesGood()
    ensures Good(Entry(1)) && Good(Entry(2)) && Good(Entry(3)) && Good(Entry(5)) && Good(Entry(7))
  {
    Affine1();
    Affine2();
    Affine3();
    Affine5();
    Affine7();
    hide IsAffine, Good;
    AffineIsGood(X1, Y1, T1);
    AffineIsGood(X2, Y2, T2);
    AffineIsGood(X3, Y3, T3);
    AffineIsGood(X5, Y5, T5);
    AffineIsGood(X7, Y7, T7);
  }

  /** The selected entries lie on the curve: the engine starts from points on the curve. */
  lemma TableIsSound()
    ensures SoundTable(Table())
  {
    hide Curve.OnCurve, Curve.Reduced, Entry, Table;
    EntriesGood();
    TableEntries();
  }

  /** The reading of a point does not depend on its projective coordinates. */
  ghost predicate Projective<G(!new)>(m: Model<G>) {
    forall p, q :: Good(p) && Good(q) && Curve.SamePoint(p, q) ==> m.value(p) == m.value(q)
  }

  /** Entry c is affine and the sum of the affine entries a and b. */
  predicate Adds(a: nat, b: nat, c: nat) {
    && Entry(a).z == 1 && Entry(b).z == 1 && Entry(c).z == 1
    && IsSum(Entry(a).x, Entry(a).y, Entry(a).t, Entry(b).x, Entry(b).y, Entry(b).t, Entry(c).x, Entry(c).y)
  }

  lemma EntriesAdd()
    ensures Adds(1, 1, 2) && Adds(2, 1, 3) && Adds(3, 2, 5) && Adds(5, 2, 7)
  {
    Sum2();
    Sum3();
    Sum5();
    Sum7();
    hide IsSum;
  }

  /** Entry c stands for the sum of what entries a and b stand for. */
  lemma EntryStands<G(!new)>(m: Model<G>, a: nat, b: nat, c: nat)
    requires Interprets(m) && Projective(m) && Good(Entry(c)) && Adds(a, b, c)
    requires Stands(m, Entry(a), Times(m.group, a, m.base)) && Stands(m, Entry(b), Times(m.group, b, m.base))
    ensures Stands(m, Entry(c), Times(m.group, a + b, m.base))
  {
    hide Good, IsSum, Interprets, Curve.Add, Curve.SamePoint, Times, Entry;
    OfInterprets(m);
    StandsSum(m, Entry(a), Times(m.group, a, m.base), Entry(b), Times(m.group, b, m.base));
    TimesSum(m.group, a, b, m.base);
    GoodReduced(Entry(a));
    GoodReduced(Entry(b));
    SumIsEntry(Entry(a), Entry(b), Entry(c));
  }

  lemma GoodReduced(p: Curve.Point)
    requires Good(p)
    ensures Curve.Reduced(p)
  {
    hide Curve.OnCurve, Curve.Reduced;
  }

  /** Entry j of the table is j times its entry 1, for every entry that is selected. */
  lemma TableIsMultiples<G(!new)>(m: Model<G>)
    requires Interprets(m) && Projective(m) && m.base == m.value(Entry(1))
    ensures TableHolds(m, Table())
  {
    hide Good, Adds, Interprets, Projective, Times, Entry, Table;
    EntriesGood();
    EntriesAdd();
    OfInterprets(m);
    TimesOne(m.group, m.base);
    EntryStands(m, 1, 1, 2);
    EntryStands(m, 2, 1, 3);
    EntryStands(m, 3, 2, 5);
    EntryStands(m, 5, 2, 7);
    TableEntries();
  }

  lemma TableEntries()
    ensures |Table()| == 16 && Table()[1] == Entry(1) && Table()[3] == Entry(3) && Table()[5] == Entry(5) && Table()[7] == Entry(7)
  {
    hide Entry;
  }
}
