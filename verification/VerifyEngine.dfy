/**
 * The Ed25519 verifier (ed25519_verify_engine.v): decode A and R, hash, reduce, recode both scalars,
 * tabulate odd multiples of A, run one interleaved double-and-add loop, and test the strict or the
 * cofactored equation.
 */
module VerifyEngine {
  import opened Bits
  import opened Group
  import opened Verdict
  import BaseTable
  import Curve
  import CurveGroup
  import Decompress
  import FieldMultiplier
  import PointCore
  import ScalarReduce
  import ScalarWnaf
  import Sha512
  import Sha512Hash
  import Sha512Stream

  class Engine {
    const addrWidth: nat
    const table: seq<Curve.Point>
    const point: PointCore.Core
    const hash: Sha512Stream.StreamEngine
    const reduce: ScalarReduce.Reducer
    const recode: ScalarWnaf.Recoder
    const sWnaf: array<nat>
    const kWnaf: array<nat>

    var verified: bool
    var sScalar: nat
    var kScalar: nat
    var a: Curve.Point
    var a2: Curve.Point
    var a3: Curve.Point
    var a5: Curve.Point
    var a7: Curve.Point
    var r: Curve.Point
    var work: Curve.Point
    var acc: Curve.Point
    var jointBitIndex: nat
    var cofactorDoubleCount: nat

    constructor (width: nat, wide: bool)
      ensures Valid() && Ready() && addrWidth == width && table == BaseTable.Table() && point.fe.wide == wide && point.Exact()
      ensures OnCurve()
    {
      addrWidth, table := width, BaseTable.Table();
      point := new PointCore.Core(wide);
      hash := new Sha512Stream.StreamEngine(width);
      reduce := new ScalarReduce.Reducer();
      recode := new ScalarWnaf.Recoder();
      sWnaf, kWnaf := new nat[256], new nat[256];
      verified, sScalar, kScalar, jointBitIndex, cofactorDoubleCount := false, 0, 0, 0, 0;
      a, a2, a3, a5, a7 := Zeroed(), Zeroed(), Zeroed(), Zeroed(), Zeroed();
      r, work, acc := Zeroed(), Zeroed(), Curve.Identity;
      SoundConstants();
    }

    static function Zeroed(): Curve.Point {
      Curve.Point(0, 0, 0, 0)
    }

    /** The parts of the engine are where the constructor put them. */
    ghost predicate Valid() {
      && point.Valid()
      && |table| == 16 && hash.addrWidth == addrWidth
      && sWnaf.Length == kWnaf.Length == ScalarWnaf.STEPS && sWnaf != kWnaf
      && Apart()
    }

    /** The arrays of the multiplier belong to it alone. */
    ghost predicate Apart() {
      var arrays := point.fe.Arrays();
      && this !in arrays && sWnaf !in arrays && kWnaf !in arrays
      && hash !in arrays && hash.core !in arrays && hash.core.wMem !in arrays && reduce !in arrays && recode !in arrays
    }

    /** Every point register holds a reduced point on the curve. */
    ghost predicate OnCurve()
      reads this`a, this`a2, this`a3, this`a5, this`a7, this`r, this`work, this`acc
    {
      Sound(a) && Sound(a2) && Sound(a3) && Sound(a5) && Sound(a7) && Sound(r) && Sound(work) && Sound(acc)
    }

    /** The multiples of A that the joint loop selects from lie on the curve. */
    ghost predicate OddOnCurve()
      reads this`a, this`a2, this`a3, this`a5, this`a7
    {
      Sound(a) && Sound(a2) && Sound(a3) && Sound(a5) && Sound(a7)
    }

    /** Points and table read in a group: what the claims about the verdict, and only those, rest on. */
    ghost predicate Reads<G(!new)>(m: Model<G>) {
      Interprets(m) && TableHolds(m, table)
    }

    /** The units below are idle. */
    ghost predicate Ready()
      reads hash, reduce, recode
    {
      && hash.Idle() && reduce.Idle()
      && !recode.busy && recode.bitIndex < ScalarWnaf.STEPS && recode.scalarWork <= ScalarWnaf.TWO_256
    }

    /** One round trip to the point core. */
    method PointOp(op: PointCore.Op, encoded: nat, p: Curve.Point, q: Curve.Point) returns (flag: bool, out: Curve.Point)
      requires Valid()
      modifies point, point.fe.Arrays()
      ensures point.Exact() ==> old(point.Exact())
      ensures point.Exact() && op == PointCore.OpDecompress ==>
        Decompress.Decode(encoded) == if flag then Decompress.Some(out) else Decompress.None
      ensures point.Exact() && op == PointCore.OpAdd ==> out == Curve.Add(p, q)
      ensures point.Exact() && op == PointCore.OpDouble ==> out == Curve.Double(p)
    {
      hide Curve.Add, Curve.Double, Decompress.Decode, FieldMultiplier.Multiplier.Arrays;
      hide FieldMultiplier.Multiplier.Valid;
      point.Run(op, encoded, p, q);
      flag, out := point.flag, Curve.Point(point.outX, point.outY, point.outZ, point.outT);
    }

    // ----- precompute -----

    /** ST_ODD_*: 2A by doubling, then 3A, 5A and 7A by addition. */
    method Precompute<G(!new)>(ghost m: Model<G>, ghost x: G)
      requires Valid() && (point.Exact() ==> Sound(a))
      requires point.Exact() && Reads(m) ==> Stands(m, a, x)
      modifies this`a2, this`a3, this`a5, this`a7, point, point.fe.Arrays()
      ensures point.Exact() ==> old(point.Exact()) && OddOnCurve()
      ensures point.Exact() && Reads(m) ==> OddTable(m, x, a, a3, a5, a7)
    {
      hide Interprets, TableHolds, Sound, Stands, Times, Twice, Curve.Add, Curve.Double;
      hide FieldMultiplier.Multiplier.Arrays;
      hide FieldMultiplier.Multiplier.Valid;
      var _, p2 := PointOp(PointCore.OpDouble, 0, a, a);
      a2 := p2;
      var _, p3 := PointOp(PointCore.OpAdd, 0, a2, a);
      a3 := p3;
      var _, p5 := PointOp(PointCore.OpAdd, 0, a3, a2);
      a5 := p5;
      var _, p7 := PointOp(PointCore.OpAdd, 0, a5, a2);
      a7 := p7;
      if point.Exact() {
        SoundDouble(a);
        SoundSum(a2, a);
        SoundSum(a3, a2);
        SoundSum(a5, a2);
        if Reads(m) {
          OddPoints(m, x, a);
        }
      }
    }

    // ----- the joint loop -----

    /** One bit: double, then subtract the digit of k times A and add the digit of s times B. */
    method JointStep<G(!new)>(ghost m: Model<G>, ghost x: G, ghost s: int, ghost k: int, ghost ds: int, ghost dk: int)
      requires Valid() && SoundTable(table) && jointBitIndex < ScalarWnaf.STEPS
      requires point.Exact() ==> OddOnCurve() && Sound(acc)
      requires ScalarWnaf.IsDigit(ds) && sWnaf[jointBitIndex] == ScalarWnaf.Nibble(ds)
      requires ScalarWnaf.IsDigit(dk) && kWnaf[jointBitIndex] == ScalarWnaf.Nibble(dk)
      requires point.Exact() && Reads(m) ==>
        OddTable(m, x, a, a3, a5, a7) && Stands(m, acc, Joint(m.group, s, m.base, k, x))
      modifies this`acc, point, point.fe.Arrays()
      ensures point.Exact() ==> old(point.Exact()) && Sound(acc)
      ensures point.Exact() && Reads(m) ==> Stands(m, acc, Joint(m.group, ds + 2 * s, m.base, dk + 2 * k, x))
    {
      hide Interprets, Sound, SoundTable, Stands, Times, Twice, Joint, Curve.Add, Curve.Double, Curve.Negate, OddTable, TableHolds;
      hide FieldMultiplier.Multiplier.Arrays, FieldMultiplier.Multiplier.Valid, ScalarWnaf.Nibble, ScalarWnaf.IsDigit;
      hide SelectA, SelectB;
      NibbleOfDigit(ds);
      NibbleOfDigit(dk);
      var sDigit, kDigit := sWnaf[jointBitIndex], kWnaf[jointBitIndex];
      var selBase, selA := SelectB(sDigit, table), SelectA(kDigit, a, a3, a5, a7);
      var _, doubled := PointOp(PointCore.OpDouble, 0, acc, acc);
      ghost var before := acc;
      acc := doubled;
      if point.Exact() {
        SoundDouble(before);
        if Reads(m) {
          JointDoubled(m, before, s, k, x);
        }
      }
      if kDigit != 0 {
        ghost var p := acc;
        var _, sum := PointOp(PointCore.OpAdd, 0, acc, selA);
        acc := sum;
        if point.Exact() {
          SoundSelected(table, a, a3, a5, a7, dk);
          SoundSum(p, selA);
          if Reads(m) {
            JointAddedA(m, p, 2 * s, 2 * k, x, dk, a, a3, a5, a7);
          }
        }
      }
      if sDigit != 0 {
        ghost var p := acc;
        var _, sum := PointOp(PointCore.OpAdd, 0, acc, selBase);
        acc := sum;
        if point.Exact() {
          SoundSelected(table, a, a3, a5, a7, ds);
          SoundSum(p, selBase);
          if Reads(m) {
            JointAddedB(m, p, 2 * s, dk + 2 * k, x, ds, table);
          }
        }
      }
    }

    /** ST_JOINT_*: all 256 digit pairs, most significant first. */
    method JointLoop<G(!new)>(ghost m: Model<G>, ghost x: G, ghost sDigits: seq<int>, ghost kDigits: seq<int>)
      requires Valid() && SoundTable(table) && (point.Exact() ==> OddOnCurve())
      requires Holds(sWnaf[..], sDigits) && Holds(kWnaf[..], kDigits)
      requires point.Exact() && Reads(m) ==> OddTable(m, x, a, a3, a5, a7)
      modifies this`acc, this`jointBitIndex, point, point.fe.Arrays()
      ensures point.Exact() ==> old(point.Exact()) && Sound(acc)
      ensures point.Exact() && Reads(m) ==>
        Stands(m, acc, Joint(m.group, ScalarWnaf.Number(sDigits), m.base, ScalarWnaf.Number(kDigits), x))
    {
      hide Interprets, Sound, SoundTable, Stands, Times, Joint, OddTable, TableHolds, ScalarWnaf.Number, ScalarWnaf.IsDigit;
      hide ScalarWnaf.Nibble;
      hide FieldMultiplier.Multiplier.Arrays, FieldMultiplier.Multiplier.Valid;
      acc := Curve.Identity;
      jointBitIndex := 255;
      ghost var s, k := 0, 0;
      SoundConstants();
      if Reads(m) {
        JointStart(m, x);
      }
      LastDigits(sDigits);
      LastDigits(kDigits);
      var running := true;
      while running
        invariant jointBitIndex < ScalarWnaf.STEPS
        invariant point.Exact() ==> old(point.Exact()) && OddOnCurve() && Sound(acc)
        invariant point.Exact() && Reads(m) ==> Stands(m, acc, Joint(m.group, s, m.base, k, x))
        invariant running ==> s == ScalarWnaf.Number(sDigits[jointBitIndex + 1..])
        invariant running ==> k == ScalarWnaf.Number(kDigits[jointBitIndex + 1..])
        invariant !running ==> s == ScalarWnaf.Number(sDigits) && k == ScalarWnaf.Number(kDigits)
        decreases running, jointBitIndex
      {
        NextDigit(sWnaf[..], sDigits, jointBitIndex);
        NextDigit(kWnaf[..], kDigits, jointBitIndex);
        JointStep(m, x, s, k, sDigits[jointBitIndex], kDigits[jointBitIndex]);
        s, k := sDigits[jointBitIndex] + 2 * s, kDigits[jointBitIndex] + 2 * k;
        if jointBitIndex == 0 {
          assert sDigits[0..] == sDigits && kDigits[0..] == kDigits;
          running := false;
        } else {
          jointBitIndex := jointBitIndex - 1;
        }
      }
    }

    // ----- the final check -----

    /** ST_FINAL_*: subtract R, multiply by the cofactor unless strict, and test for the identity. */
    method Finalize<G(!new)>(mode: nat, ghost m: Model<G>, ghost e: G, ghost y: G)
      requires Valid() && (point.Exact() ==> Sound(acc) && Sound(r))
      requires point.Exact() && Reads(m) ==> Stands(m, acc, e) && Stands(m, r, y)
      modifies this`work, this`verified, this`cofactorDoubleCount, point, point.fe.Arrays()
      ensures point.Exact() ==> old(point.Exact()) && Sound(work)
      ensures point.Exact() && Reads(m) ==> (verified <==> Vanishes(m.group, mode, m.group.add(e, m.group.neg(y))))
    {
      hide Interprets, TableHolds, Sound, Stands, Times, Twice, Curve.Add, Curve.Double, Curve.Negate;
      hide FieldMultiplier.Multiplier.Arrays, FieldMultiplier.Multiplier.Valid;
      work := acc;
      ghost var residue := m.group.add(e, m.group.neg(y));
      var _, out := PointOp(PointCore.OpAdd, 0, work, Curve.Negate(r));
      if point.Exact() {
        SoundNegate(r);
        SoundSum(work, Curve.Negate(r));
        if Reads(m) {
          StandsNegate(m, r, y);
          StandsSum(m, work, e, Curve.Negate(r), m.group.neg(y));
        }
      }
      if mode == VERIFY_MODE_AGAVE_ZEBRA {
        work := out;
        MultiplyByCofactor(m, residue);
        out := work;
        if point.Exact() && Reads(m) {
          TimesCofactor(m, residue);
          IdentityTest(m, out, Times(m.group, 8, residue));
        }
      } else if point.Exact() && Reads(m) {
        IdentityTest(m, out, residue);
      }
      verified := IsIdentity(out);
      VanishesWhen(m.group, mode, residue);
    }

    /** ST_FINAL_COF_DBL_*: three doublings. */
    method MultiplyByCofactor<G(!new)>(ghost m: Model<G>, ghost e: G)
      requires Valid() && (point.Exact() ==> Sound(work))
      requires point.Exact() && Reads(m) ==> Stands(m, work, e)
      modifies this`work, this`cofactorDoubleCount, point, point.fe.Arrays()
      ensures point.Exact() ==> old(point.Exact()) && Sound(work)
      ensures point.Exact() && Reads(m) ==> Stands(m, work, Twice(m.group, Twice(m.group, Twice(m.group, e))))
    {
      hide Interprets, TableHolds, Sound, Stands, Twice, Curve.Double;
      hide FieldMultiplier.Multiplier.Arrays, FieldMultiplier.Multiplier.Valid;
      DoubledThrice(m.group, e);
      cofactorDoubleCount := 0;
      ghost var x := e;
      var last := false;
      while !last
        invariant cofactorDoubleCount <= 2
        invariant point.Exact() ==> old(point.Exact()) && Sound(work)
        invariant point.Exact() && Reads(m) ==> Stands(m, work, x)
        invariant !last ==> x == Doubled(m.group, e, cofactorDoubleCount)
        invariant last ==> x == Doubled(m.group, e, 3)
        decreases !last, 3 - cofactorDoubleCount
      {
        var _, out := PointOp(PointCore.OpDouble, 0, work, work);
        if point.Exact() {
          SoundDouble(work);
          if Reads(m) {
            StandsDouble(m, work, x);
          }
        }
        work, x := out, Twice(m.group, x);
        if cofactorDoubleCount == 2 {
          last := true;
        } else {
          cofactorDoubleCount := cofactorDoubleCount + 1;
        }
      }
    }

    // ----- a whole verification -----

    /** ST_DEC_A_* and ST_DEC_R_*. */
    method DecodePoints(q: Request) returns (ok: bool)
      requires Valid()
      modifies this`a, this`r, point, point.fe.Arrays()
      ensures point.Exact() ==> old(point.Exact())
      ensures point.Exact() && ok ==> Sound(a) && Sound(r)
      ensures point.Exact() && old(OnCurve()) ==> OnCurve()
      ensures point.Exact() ==> (ok <==> Decompress.Decode(q.pubkey).Some? && Decompress.Decode(q.sigR).Some?)
      ensures point.Exact() && ok ==> a == Decompress.Decode(q.pubkey).value && r == Decompress.Decode(q.sigR).value
    {
      hide Sound, Decompress.Decode, FieldMultiplier.Multiplier.Arrays, FieldMultiplier.Multiplier.Valid;
      var flag, out := PointOp(PointCore.OpDecompress, q.pubkey, Curve.Identity, Curve.Identity);
      if !flag {
        return false;
      }
      a := out;
      if point.Exact() {
        SoundDecoded(q.pubkey);
      }
      flag, out := PointOp(PointCore.OpDecompress, q.sigR, Curve.Identity, Curve.Identity);
      if !flag {
        return false;
      }
      r := out;
      if point.Exact() {
        SoundDecoded(q.sigR);
      }
      ok := true;
    }

    /** ST_HASH_* and ST_REDUCE_*: the challenge k. */
    method HashAndReduce(q: Request) returns (ok: bool)
      requires Valid() && Ready() && q.length < 0x1_0000 && Pow2(addrWidth) <= 4 * |q.memory|
      modifies this`kScalar, hash, hash.core, hash.core.wMem, reduce
      ensures Ready()
      ensures ok <==> q.length <= Pow2(addrWidth)
      ensures ok ==> kScalar == Challenge(q)
    {
      hide Pow2, Sha512Hash.Hash, Sha512Stream.Input, Value, Sha512Hash.Packed, Sha512Hash.DigestBytes;
      hide ScalarReduce.ModL;
      hide ScalarReduce.BytesDown, Apart, HashJob;
      SameLength(q);
      ok := hash.Run(HashJob(q));
      if ok {
        var words := Sha512Hash.WordList(hash.digestOut);
        DigestRegister(words);
        kScalar := reduce.Reduce(Sha512Hash.Packed(words));
      }
    }

    lemma SameLength(q: Request)
      ensures HashJob(q).length == q.length && HashJob(q).memory == q.memory
    {
    }

    /** ST_RECODE_*: both scalars as signed digits. */
    method RecodeBoth(s: nat, k: nat)
      requires Valid() && Ready() && s < ScalarReduce.L && k < ScalarReduce.L
      modifies recode, sWnaf, kWnaf
      ensures Ready()
      ensures Holds(sWnaf[..], ScalarWnaf.Recoded(s, 256)) && ScalarWnaf.Number(ScalarWnaf.Recoded(s, 256)) == s
      ensures Holds(kWnaf[..], ScalarWnaf.Recoded(k, 256)) && ScalarWnaf.Number(ScalarWnaf.Recoded(k, 256)) == k
    {
      BelowHalf(s);
      BelowHalf(k);
      hide ScalarWnaf.Recoded, ScalarWnaf.Number, ScalarWnaf.Residual, ScalarWnaf.Nibble, ScalarWnaf.IsDigit;
      hide ScalarReduce.L, Apart;
      recode.Recode(s, sWnaf);
      ghost var sPacked := sWnaf[..];
      recode.Recode(k, kWnaf);
      assert sWnaf[..] == sPacked;
      ScalarWnaf.DigitsInRange(s, 256);
      ScalarWnaf.DigitsInRange(k, 256);
    }

    /**
     * From start to done: the engine accepts exactly the signatures that satisfy the verification equation
     * in the group of the curve. Exact is about the products of this run alone: every point register that
     * is used is first rewritten.
     */
    method Verify(q: Request)
      requires Valid() && Ready() && table == BaseTable.Table()
      requires q.length < 0x1_0000 && Pow2(addrWidth) <= 4 * |q.memory|
      modifies this, point, point.fe.Arrays(), hash, hash.core, hash.core.wMem, reduce, recode, sWnaf, kWnaf
      ensures Ready()
      ensures verified ==> Admitted(q, addrWidth) && q.sigS < ScalarReduce.L
      ensures verified && q.mode != VERIFY_MODE_AGAVE_ZEBRA ==> !SmallOrder(q.pubkey) && !SmallOrder(q.sigR)
      ensures point.Exact() && (old(OnCurve()) || verified) ==> OnCurve()
      ensures point.Exact() ==> (verified <==> CurveGroup.IsValid(q, addrWidth))
      ensures !point.fe.wide ==> (verified <==> CurveGroup.IsValid(q, addrWidth))
    {
      hide Pow2, SmallOrder, Decompress.Decode, ScalarReduce.L, Challenge, Joint, Times;
      hide Interprets, TableHolds, Vanishes, Equation, Good, Sound, SoundTable, Accepts;
      hide FieldMultiplier.Multiplier.Arrays, FieldMultiplier.Multiplier.Valid, ScalarWnaf.Recoded, ScalarWnaf.Number;
      hide BaseTable.Table, CurveGroup.CurveModel, CurveGroup.IsValid;
      ghost var m := CurveGroup.CurveModel();
      StandardTable(table);
      ValidIs(q, addrWidth);
      verified := false;
      point.kept := true;
      if q.sigS >= ScalarReduce.L {
        return;
      }
      if Strict(q) && (SmallOrder(q.pubkey) || SmallOrder(q.sigR)) {
        return;
      }
      sScalar := q.sigS;
      var decoded := DecodePoints(q);
      if !decoded {
        return;
      }
      var hashed := HashAndReduce(q);
      if !hashed {
        return;
      }
      ChallengeFits(q);
      ghost var x, y := m.value(a), m.value(r);
      if point.Exact() {
        DecodedIsGood(q.pubkey);
        DecodedIsGood(q.sigR);
        AcceptsWhen(m, q, addrWidth);
        assert Stands(m, a, x) && Stands(m, r, y);
      }
      CheckEquation(q.mode, m, x, y);
    }

    /** ST_RECODE_S_START to the end of the joint loop: the accumulator holds s B - k A. */
    method Combine<G(!new)>(ghost m: Model<G>, ghost x: G)
      requires Valid() && Ready() && SoundTable(table) && (point.Exact() ==> Sound(a))
      requires sScalar < ScalarReduce.L && kScalar < ScalarReduce.L
      requires point.Exact() && Reads(m) ==> Stands(m, a, x)
      modifies this`a2, this`a3, this`a5, this`a7, this`acc, this`jointBitIndex
      modifies point, point.fe.Arrays(), recode, sWnaf, kWnaf
      ensures Ready()
      ensures point.Exact() ==> old(point.Exact()) && OddOnCurve() && Sound(acc)
      ensures point.Exact() && Reads(m) ==> Stands(m, acc, Joint(m.group, sScalar, m.base, kScalar, x))
    {
      hide ScalarReduce.L, Joint, Interprets, TableHolds, OddTable, Holds, Stands, Sound, SoundTable;
      hide FieldMultiplier.Multiplier.Arrays, FieldMultiplier.Multiplier.Valid, ScalarWnaf.Recoded, ScalarWnaf.Number;
      RecodeBoth(sScalar, kScalar);
      Precompute(m, x);
      JointLoop(m, x, ScalarWnaf.Recoded(sScalar, 256), ScalarWnaf.Recoded(kScalar, 256));
    }

    /** ST_RECODE_S_START to ST_DONE: whether s B - k A - R vanishes. */
    method CheckEquation<G(!new)>(mode: nat, ghost m: Model<G>, ghost x: G, ghost y: G)
      requires Valid() && Ready() && SoundTable(table) && (point.Exact() ==> Sound(a) && Sound(r))
      requires sScalar < ScalarReduce.L && kScalar < ScalarReduce.L
      requires point.Exact() && Reads(m) ==> Stands(m, a, x) && Stands(m, r, y)
      modifies this, point, point.fe.Arrays(), recode, sWnaf, kWnaf
      ensures Ready()
      ensures point.Exact() ==> old(point.Exact()) && OnCurve()
      ensures point.Exact() && Reads(m) ==> (verified <==> Vanishes(m.group, mode, Equation(m, old(sScalar), old(kScalar), x, y)))
    {
      hide ScalarReduce.L, Joint, Interprets, TableHolds, Stands, Vanishes, Sound, SoundTable;
      hide FieldMultiplier.Multiplier.Arrays, FieldMultiplier.Multiplier.Valid;
      Combine(m, x);
      Finalize(mode, m, Joint(m.group, sScalar, m.base, kScalar, x), y);
    }
  }

  /** The table of the standard base point, read in the group of the curve. */
  lemma StandardTable(table: seq<Curve.Point>)
    requires table == BaseTable.Table()
    ensures SoundTable(table) && Interprets(CurveGroup.CurveModel()) && TableHolds(CurveGroup.CurveModel(), table)
  {
    hide SoundTable, Interprets, TableHolds, BaseTable.Table, CurveGroup.CurveModel;
    BaseTable.TableIsSound();
    CurveGroup.CurveInterprets();
  }

  /** Without admission or without two points there is nothing to accept. */
  lemma ValidIs(q: Request, addrWidth: nat)
    requires Pow2(addrWidth) <= 4 * |q.memory|
    ensures CurveGroup.IsValid(q, addrWidth) == Accepts(CurveGroup.CurveModel(), q, addrWidth)
    ensures Accepts(CurveGroup.CurveModel(), q, addrWidth) ==> Admitted(q, addrWidth)
    ensures Accepts(CurveGroup.CurveModel(), q, addrWidth) ==>
      Decompress.Decode(q.pubkey).Some? && Decompress.Decode(q.sigR).Some?
  {
    hide Pow2, Decompress.Decode, Challenge, Vanishes, Equation, CurveGroup.CurveModel, Admitted;
  }

  lemma ChallengeFits(q: Request)
    requires q.length <= 4 * |q.memory|
    ensures Challenge(q) < ScalarReduce.L
  {
    hide Value, Sha512Hash.Hash, Sha512Hash.DigestBytes, Sha512Stream.Input;
  }

  lemma BelowHalf(s: nat)
    requires s < ScalarReduce.L
    ensures s < ScalarWnaf.TWO_256
    ensures ScalarWnaf.Number(ScalarWnaf.Recoded(s, 256)) == s
  {
    ScalarWnaf.RecodesScalars(s);
  }

  lemma VanishesWhen<G>(g: Group<G>, mode: nat, e: G)
    ensures mode == VERIFY_MODE_AGAVE_ZEBRA ==> (Vanishes(g, mode, e) <==> Times(g, 8, e) == g.zero)
    ensures mode != VERIFY_MODE_AGAVE_ZEBRA ==> (Vanishes(g, mode, e) <==> e == g.zero)
  {
    hide Times;
  }

  /** e doubled n times. */
  function Doubled<G>(g: Group<G>, e: G, n: nat): G {
    if n == 0 then e else Twice(g, Doubled(g, e, n - 1))
  }

  lemma DoubledThrice<G>(g: Group<G>, e: G)
    ensures Doubled(g, e, 3) == Twice(g, Twice(g, Twice(g, e)))
  {
    hide Twice;
    assert Doubled(g, e, 1) == Twice(g, e);
    assert Doubled(g, e, 2) == Twice(g, Doubled(g, e, 1));
  }

  lemma TimesCofactor<G(!new)>(m: Model<G>, e: G)
    requires Interprets(m)
    ensures Twice(m.group, Twice(m.group, Twice(m.group, e))) == Times(m.group, 8, e)
  {
    Cofactor(m.group, e);
  }

  /** A digit memory holds signed digits in four bits each. */
  ghost predicate Holds(packed: seq<nat>, digits: seq<int>) {
    && |packed| == |digits| == ScalarWnaf.STEPS
    && (forall i :: 0 <= i < |digits| ==> packed[i] == ScalarWnaf.Nibble(digits[i]) && ScalarWnaf.IsDigit(digits[i]))
  }

  lemma NextDigit(packed: seq<nat>, digits: seq<int>, i: nat)
    requires Holds(packed, digits) && i < ScalarWnaf.STEPS
    ensures packed[i] == ScalarWnaf.Nibble(digits[i]) && ScalarWnaf.IsDigit(digits[i])
    ensures ScalarWnaf.Number(digits[i..]) == digits[i] + 2 * ScalarWnaf.Number(digits[i + 1..])
  {
    assert digits[i..][1..] == digits[i + 1..];
  }

  lemma LastDigits(digits: seq<int>)
    requires |digits| == ScalarWnaf.STEPS
    ensures ScalarWnaf.Number(digits[255 + 1..]) == 0
  {
    assert digits[255 + 1..] == [];
  }

  lemma JointStart<G(!new)>(m: Model<G>, x: G)
    requires Interprets(m)
    ensures Stands(m, Curve.Identity, Joint(m.group, 0, m.base, 0, x))
  {
    hide Interprets, Stands, Joint;
    OfInterprets(m);
    JointZero(m.group, m.base, x);
    StandsIdentity(m);
  }

  lemma OddPoints<G(!new)>(m: Model<G>, x: G, a: Curve.Point)
    requires Interprets(m) && Stands(m, a, x)
    ensures var a2 := Curve.Double(a);
      var a3 := Curve.Add(a2, a);
      var a5 := Curve.Add(a3, a2);
      OddTable(m, x, a, a3, a5, Curve.Add(a5, a2))
  {
    hide Interprets, Stands, Times, Twice, Curve.Add, Curve.Double;
    OfInterprets(m);
    OddMultiples(m.group, x);
    TimesOne(m.group, x);
    var a2 := Curve.Double(a);
    var a3 := Curve.Add(a2, a);
    var a5 := Curve.Add(a3, a2);
    StandsDouble(m, a, x);
    StandsSum(m, a2, Times(m.group, 2, x), a, x);
    StandsSum(m, a3, Times(m.group, 3, x), a2, Times(m.group, 2, x));
    StandsSum(m, a5, Times(m.group, 5, x), a2, Times(m.group, 2, x));
  }

  lemma JointDoubled<G(!new)>(m: Model<G>, p: Curve.Point, s: int, k: int, x: G)
    requires Interprets(m) && Stands(m, p, Joint(m.group, s, m.base, k, x))
    ensures Stands(m, Curve.Double(p), Joint(m.group, 2 * s, m.base, 2 * k, x))
  {
    hide Interprets, Stands, Times, Twice, Joint, Curve.Double;
    OfInterprets(m);
    StandsDouble(m, p, Joint(m.group, s, m.base, k, x));
    JointDouble(m.group, s, m.base, k, x);
  }

  lemma JointAddedA<G(!new)>(m: Model<G>, p: Curve.Point, s: int, k: int, x: G, d: int,
                             a: Curve.Point, a3: Curve.Point, a5: Curve.Point, a7: Curve.Point)
    requires Interprets(m) && OddTable(m, x, a, a3, a5, a7) && ScalarWnaf.IsDigit(d) && d != 0
    requires Stands(m, p, Joint(m.group, s, m.base, k, x))
    ensures ScalarWnaf.Nibble(d) < 16
    ensures Stands(m, Curve.Add(p, SelectA(ScalarWnaf.Nibble(d), a, a3, a5, a7)), Joint(m.group, s, m.base, d + k, x))
  {
    hide Interprets, Stands, Times, Joint, Curve.Add, OddTable, ScalarWnaf.Nibble, ScalarWnaf.IsDigit, SelectA;
    OfInterprets(m);
    SelectedA(m, x, a, a3, a5, a7, d);
    StandsSum(m, p, Joint(m.group, s, m.base, k, x),
      SelectA(ScalarWnaf.Nibble(d), a, a3, a5, a7), m.group.neg(Times(m.group, d, x)));
    JointAddA(m.group, s, m.base, k, x, d);
  }

  lemma JointAddedB<G(!new)>(m: Model<G>, p: Curve.Point, s: int, k: int, x: G, d: int, table: seq<Curve.Point>)
    requires Interprets(m) && TableHolds(m, table) && ScalarWnaf.IsDigit(d) && d != 0
    requires Stands(m, p, Joint(m.group, s, m.base, k, x))
    ensures ScalarWnaf.Nibble(d) < 16 && |table| == 16
    ensures Stands(m, Curve.Add(p, SelectB(ScalarWnaf.Nibble(d), table)), Joint(m.group, d + s, m.base, k, x))
  {
    TableEntry(m, table, 1);
    hide Interprets, Stands, Times, Joint, Curve.Add, TableHolds, ScalarWnaf.Nibble, ScalarWnaf.IsDigit, SelectB;
    OfInterprets(m);
    SelectedB(m, table, d);
    StandsSum(m, p, Joint(m.group, s, m.base, k, x), SelectB(ScalarWnaf.Nibble(d), table), Times(m.group, d, m.base));
    JointAddB(m.group, s, m.base, k, x, d);
  }
}
