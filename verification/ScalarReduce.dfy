/** Reducing a 64-byte digest modulo the group order, one bit at a time (scalar_reduce_mod_l.v). */
module ScalarReduce {
  import opened Bits

  const BYTES: nat := 64
  const L: nat := 0x1000000000000000000000000000000014def9dea2f79cd65812631a5cf5d3ed
  const TWO_256: nat := 0x1_0000_0000_0000_0000_0000_0000_0000_0000_0000_0000_0000_0000_0000_0000_0000_0000
  const TWO_257: nat := 0x20000000000000000000000000000000000000000000000000000000000000000
  const TWO_258: nat := 0x40000000000000000000000000000000000000000000000000000000000000000
  const TWO_511: nat := 0x80000000000000000000000000000000000000000000000000000000000000000000000000000000000000000000000000000000000000000000000000000000
  const TWO_512: nat := 0x100000000000000000000000000000000000000000000000000000000000000000000000000000000000000000000000000000000000000000000000000000000

  /** The order of the base point as section 5.1 of RFC 8032 gives it. */
  lemma OrderIsStandard()
    ensures L == Pow2(252) + 27742317777372353535851937790883648493
  {
    Powers();
    assert Pow2(124) == 0x1000_0000_0000_0000_0000_0000_0000_0000;
    hide Pow2;
    Joined(124, 128, 0x1000_0000_0000_0000_0000_0000_0000_0000, 0x1_0000_0000_0000_0000_0000_0000_0000_0000);
  }

  /** The bytes of a 512-bit register from the most significant down: the digest as a byte string. */
  function BytesDown(wide: nat): (s: seq<nat>)
    ensures |s| == BYTES && Below(s, 256)
  {
    var up := Digits(256, wide, BYTES);
    seq(BYTES, i requires 0 <= i < BYTES => up[BYTES - 1 - i])
  }

  /** The digest read as a little-endian number (section 5.1.7 of RFC 8032). */
  function LittleEndian(wide: nat): nat {
    Value(256, BytesDown(wide))
  }

  lemma LittleEndianFits(wide: nat)
    ensures LittleEndian(wide) < TWO_512
  {
    hide Value, BytesDown;
    ValueBound(256, BytesDown(wide));
    BytesToBits();
  }

  lemma BytesToBits()
    ensures Pow(256, 64) == TWO_512 == Pow2(512)
  {
    Powers();
    assert Pow(256, 1) == 256;
    hide Pow;
    PowAdd(256, 1, 1);
    PowAdd(256, 2, 2);
    PowAdd(256, 4, 4);
    PowAdd(256, 8, 8);
    PowAdd(256, 16, 16);
    PowAdd(256, 32, 32);
    PowAdd(2, 128, 128);
    PowAdd(2, 256, 256);
  }

  function ModL(n: nat): nat {
    n % L
  }

  /** One step: bring down a bit and subtract L when that leaves no borrow. */
  lemma RemainderStep(prefix: nat, bit: nat, remainder: nat)
    requires remainder == ModL(prefix) && bit < 2
    ensures remainder < L
    ensures var candidate := 2 * remainder + bit;
      ModL(2 * prefix + bit) == if candidate >= L then candidate - L else candidate
  {
    var q := prefix / L;
    assert 2 * prefix + bit == 2 * q * L + (2 * remainder + bit);
    var c := 2 * remainder + bit;
    if c >= L {
      DivModUnique(2 * prefix + bit, L, 2 * q + 1, c - L);
    } else {
      DivModUnique(2 * prefix + bit, L, 2 * q, c);
    }
  }

  /** The shift register after one left shift. */
  function Shifted(shift: nat): nat {
    2 * shift % TWO_512
  }

  /** After k shifts, the consumed prefix and the shift register hold n between them. */
  ghost predicate Accounts(n: nat, k: nat, prefix: nat, shift: nat) {
    n * Pow2(k) == prefix * TWO_512 + shift && shift < TWO_512
  }

  function TopBit(shift: nat): nat {
    shift / TWO_511
  }

  lemma ShiftStep(n: nat, k: nat, prefix: nat, shift: nat)
    requires Accounts(n, k, prefix, shift)
    ensures TopBit(shift) < 2 && Accounts(n, k + 1, 2 * prefix + TopBit(shift), Shifted(shift))
  {
    TwiceHalf();
    DoubledPower(n, k);
    hide TWO_511, TWO_512, Pow2;
    ShiftOut(n * Pow2(k), prefix, shift, TWO_511, TWO_512);
  }

  lemma ShiftStart(n: nat)
    requires n < TWO_512
    ensures Accounts(n, 0, 0, n)
  {
    Powers();
    hide Pow2;
  }

  lemma TwiceHalf()
    ensures TWO_511 > 0 && TWO_512 == 2 * TWO_511
  {
  }

  lemma ShiftOut(x: nat, prefix: nat, shift: nat, half: nat, full: nat)
    requires half > 0 && full == 2 * half && x == prefix * full + shift && shift < full
    ensures shift / half < 2 && 2 * shift % full < full
    ensures 2 * x == (2 * prefix + shift / half) * full + 2 * shift % full
  {
    if shift < half {
      DivModUnique(shift, half, 0, shift);
      DivModUnique(2 * shift, full, 0, 2 * shift);
    } else {
      DivModUnique(shift, half, 1, shift - half);
      DivModUnique(2 * shift, full, 1, 2 * shift - full);
    }
    assert (2 * prefix + shift / half) * full == 2 * (prefix * full) + shift / half * full;
  }

  class Reducer {
    var busy: bool
    var done: bool
    var shiftReg: nat
    var remainder: nat
    var bitIndex: nat
    var scalarOut: nat

    constructor ()
      ensures Idle()
    {
      busy, done, shiftReg, remainder, bitIndex, scalarOut := false, false, 0, 0, 0, 0;
    }

    predicate Idle() reads this {
      !busy
    }

    /** The top `512 - 1 - bitIndex` bits of n have been consumed and reduced. */
    ghost predicate Consumed(n: nat, prefix: nat) reads this {
      && bitIndex <= 511
      && Accounts(n, 511 - bitIndex, prefix, shiftReg)
      && remainder == ModL(prefix)
    }

    /** The start cycle: the bytes are reversed on the way into the shift register. */
    method Load(wideIn: nat)
      modifies this
      ensures busy && !done && shiftReg == LittleEndian(wideIn) && remainder == 0 && bitIndex == 511
    {
      hide Value, Digits;
      var shiftBytes := new nat[64];
      ghost var up := Digits(256, wideIn, BYTES);
      for byteIndex := 0 to BYTES
        invariant forall i :: 0 <= i < byteIndex ==> shiftBytes[i] == BytesDown(wideIn)[i]
      {
        shiftBytes[byteIndex] := Digits(256, wideIn, BYTES)[63 - byteIndex];
      }
      assert shiftBytes[..] == BytesDown(wideIn);
      shiftReg := Value(256, shiftBytes[..]);
      remainder, scalarOut, bitIndex, busy, done := 0, 0, 511, true, false;
    }

    /** Bring down a bit and subtract L in 258 bits; bit 257 is the borrow. */
    static method Subtract(remainder: nat, bit: nat) returns (next: nat)
      requires remainder < L && bit < 2
      ensures next == if 2 * remainder + bit >= L then 2 * remainder + bit - L else 2 * remainder + bit
    {
      var candidate1Bit := (2 * remainder + bit) % TWO_257;
      var candidateMinusL := (candidate1Bit - L) % TWO_258;
      next := if candidateMinusL < TWO_257 then candidateMinusL % TWO_256 else candidate1Bit % TWO_256;
    }

    /** One clock edge while busy. */
    method Clock(ghost n: nat, ghost prefix: nat) returns (ghost next: nat)
      requires busy && Consumed(n, prefix)
      modifies this
      ensures next == 2 * prefix + TopBit(old(shiftReg))
      ensures old(bitIndex) == 0 ==> !busy && done && scalarOut == ModL(n)
      ensures old(bitIndex) > 0 ==> busy && !done && bitIndex == old(bitIndex) - 1 && Consumed(n, next)
    {
      hide L, ModL, TWO_511, TWO_512, Accounts, TopBit, Shifted;
      var bit := TopBit(shiftReg);
      ShiftStep(n, 511 - bitIndex, prefix, shiftReg);
      RemainderStep(prefix, bit, remainder);
      var nextRemainder := Subtract(remainder, bit);
      next := 2 * prefix + bit;
      remainder := nextRemainder;
      shiftReg := Shifted(shiftReg);
      done := false;
      if bitIndex == 0 {
        AllShifted(n, next, shiftReg);
        busy, done, scalarOut := false, true, nextRemainder;
      } else {
        bitIndex := bitIndex - 1;
      }
    }

    /** 512 steps leave the little-endian digest modulo L. */
    method Reduce(wideIn: nat) returns (scalar: nat)
      requires Idle()
      modifies this
      ensures Idle() && scalar == scalarOut == ModL(LittleEndian(wideIn))
    {
      LittleEndianFits(wideIn);
      assert ModL(0) == 0;
      hide LittleEndian, L, ModL, TWO_512, TWO_511, Accounts, TopBit, Shifted;
      Load(wideIn);
      ghost var n := LittleEndian(wideIn);
      ghost var prefix := 0;
      ShiftStart(n);
      while busy
        invariant busy ==> Consumed(n, prefix)
        invariant !busy ==> scalarOut == ModL(n)
        decreases busy, bitIndex
      {
        prefix := Clock(n, prefix);
      }
      scalar := scalarOut;
    }
  }

  lemma DoubledPower(n: nat, k: nat)
    ensures n * Pow2(k + 1) == 2 * (n * Pow2(k))
  {
    assert Pow2(k + 1) == 2 * Pow2(k);
  }

  /** After 512 shifts the prefix is the whole number. */
  lemma AllShifted(n: nat, prefix: nat, shift: nat)
    requires Accounts(n, 512, prefix, shift)
    ensures prefix == n
  {
    BytesToBits();
    hide Pow2, TWO_511;
  }
}
