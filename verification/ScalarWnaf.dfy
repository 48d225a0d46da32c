/** Recoding a 256-bit scalar into 256 signed digits of the width-4 non-adjacent form (scalar_wnaf4_recode.v). */
module ScalarWnaf {
  import opened Bits

  const STEPS: nat := 256
  const TWO_256: nat := 0x1_0000_0000_0000_0000_0000_0000_0000_0000_0000_0000_0000_0000_0000_0000_0000_0000
  const TWO_257: nat := 0x2_0000_0000_0000_0000_0000_0000_0000_0000_0000_0000_0000_0000_0000_0000_0000_0000

  // ----- the form -----

  /** The digit of an odd w is the odd number in [-7, 7] that w is congruent to modulo 16. */
  function Digit(w: nat): int {
    if w % 2 == 0 then 0 else if w % 16 < 8 then w % 16 else w % 16 - 16
  }

  function Next(w: nat): nat {
    (w - Digit(w)) / 2
  }

  /** The scalar left after n steps. */
  function Residual(w: nat, n: nat): nat
    decreases n
  {
    if n == 0 then w else Residual(Next(w), n - 1)
  }

  function Recoded(w: nat, n: nat): (s: seq<int>)
    ensures |s| == n
    decreases n
  {
    if n == 0 then [] else [Digit(w)] + Recoded(Next(w), n - 1)
  }

  /** The number that signed digits stand for, least significant first. */
  function Number(s: seq<int>): int {
    if s == [] then 0 else s[0] + 2 * Number(s[1..])
  }

  ghost predicate Sparse(s: seq<int>) {
    forall i, j :: 0 <= i < j < |s| && j < i + 4 ==> s[i] == 0 || s[j] == 0
  }

  predicate IsDigit(d: int) {
    d == 0 || d == 1 || d == -1 || d == 3 || d == -3 || d == 5 || d == -5 || d == 7 || d == -7
  }

  lemma {:induction false} DigitsAt(w: nat, n: nat, i: nat)
    requires i < n
    ensures Recoded(w, n)[i] == Digit(Residual(w, i))
    ensures Residual(w, i + 1) == Next(Residual(w, i))
    decreases i
  {
    if i > 0 {
      DigitsAt(Next(w), n - 1, i - 1);
    }
  }

  /** Digits and residual account for the whole scalar, for every scalar and every number of steps. */
  lemma {:induction false} RecodingKeepsValue(w: nat, n: nat)
    ensures Number(Recoded(w, n)) + Pow2(n) * Residual(w, n) == w
    decreases n
  {
    if n > 0 {
      RecodingKeepsValue(Next(w), n - 1);
      NextUndoes(w);
      hide Digit, Next;
      assert Recoded(w, n)[1..] == Recoded(Next(w), n - 1);
      RegroupDigit(2, Digit(w), Number(Recoded(Next(w), n - 1)), Pow2(n - 1), Residual(Next(w), n - 1));
    }
  }

  lemma NextUndoes(w: nat)
    ensures w == Digit(w) + 2 * Next(w)
  {
    if w % 2 == 1 {
      Sixteenths(w, w / 16, w % 16);
    }
  }

  lemma Sixteenths(w: nat, q: nat, r: nat)
    requires w == 16 * q + r && r < 16
    ensures w % 2 == r % 2 && (w - r) / 2 == 8 * q && (w - (r - 16)) / 2 == 8 * q + 8
  {
  }

  lemma RegroupDigit(b: int, d: int, v: int, p: int, w: int)
    ensures d + b * v + (b * p) * w == d + b * (v + p * w)
  {
    assert b * (p * w) == (b * p) * w;
  }

  lemma {:induction false} DigitsInRange(w: nat, n: nat)
    ensures forall i :: 0 <= i < n ==> IsDigit(Recoded(w, n)[i])
  {
    forall i | 0 <= i < n ensures IsDigit(Recoded(w, n)[i]) {
      DigitsAt(w, n, i);
      DigitInRange(Residual(w, i));
      hide Recoded, Residual, Digit, IsDigit;
    }
  }

  lemma DigitInRange(w: nat)
    ensures IsDigit(Digit(w))
  {
    LowBit(w / 16, w % 16);
  }

  /** After a nonzero digit the rest is divisible by 8, so three zero digits follow. */
  lemma ThreeZeros(w: nat)
    requires Digit(w) != 0
    ensures Digit(Next(w)) == 0 && Digit(Next(Next(w))) == 0 && Digit(Next(Next(Next(w)))) == 0
  {
    var m := Eighth(w);
    EvenStep(4 * m);
    EvenStep(2 * m);
    EvenStep(m);
    hide Digit, Next;
    assert 8 * m == 2 * (4 * m) && 4 * m == 2 * (2 * m);
  }

  lemma Eighth(w: nat) returns (m: nat)
    requires Digit(w) != 0
    ensures Next(w) == 8 * m
  {
    m := (w - Digit(w)) / 16;
    assert (w - Digit(w)) % 16 == 0;
  }

  lemma EvenStep(m: nat)
    ensures Digit(2 * m) == 0 && Next(2 * m) == m
  {
  }

  /** At most one digit in any four neighbours is nonzero. */
  lemma {:induction false} DigitsSparse(w: nat, n: nat)
    ensures Sparse(Recoded(w, n))
  {
    forall i, j | 0 <= i < j < n && j < i + 4 ensures Recoded(w, n)[i] == 0 || Recoded(w, n)[j] == 0 {
      SparseAt(w, n, i, j);
    }
  }

  lemma {:induction false} SparseAt(w: nat, n: nat, i: nat, j: nat)
    requires i < j < n && j < i + 4
    ensures Recoded(w, n)[i] == 0 || Recoded(w, n)[j] == 0
  {
    hide Digit, Next, Recoded, Residual;
    DigitsAt(w, n, i);
    DigitsAt(w, n, i + 1);
    DigitsAt(w, n, j);
    if j == i + 3 {
      DigitsAt(w, n, i + 2);
    }
    if Digit(Residual(w, i)) != 0 {
      ThreeZeros(Residual(w, i));
    }
  }

  /** One step halves any power-of-two bound, so k steps take a scalar of at most 2^k to at most 1. */
  lemma NextBound(w: nat, k: nat)
    requires w <= Pow2(k)
    ensures Next(w) <= (if k == 0 then 0 else Pow2(k - 1))
  {
    assert Pow2(0) == 1;
    if k >= 4 {
      PowAdd(2, 4, k - 4);
      assert Pow2(4) == 16;
      assert Pow2(k) % 16 == 0;
      assert Pow2(k) == 2 * Pow2(k - 1);
    } else if k >= 1 {
      assert Pow2(1) == 2 && Pow2(2) == 4 && Pow2(3) == 8;
    }
  }

  lemma {:induction false} ResidualBound(w: nat, k: nat, n: nat)
    requires w <= Pow2(k) && n <= k
    ensures Residual(w, n) <= Pow2(k - n)
    decreases n
  {
    if n > 0 {
      NextBound(w, k);
      ResidualBound(Next(w), k - 1, n - 1);
    }
  }

  /** k + 1 steps exhaust every scalar up to 2^k: the digits alone are its value. */
  lemma {:induction false} Exhausted(w: nat, k: nat)
    requires w <= Pow2(k)
    ensures Residual(w, k + 1) == 0
    ensures Number(Recoded(w, k + 1)) == w
  {
    ResidualBound(w, k, k);
    DigitsAt(w, k + 1, k);
    NextBound(Residual(w, k), 0);
    RecodingKeepsValue(w, k + 1);
  }

  /** What 256 steps do to any scalar up to 2^255, in particular to every one below the group order. */
  lemma RecodesScalars(w: nat)
    requires w <= TWO_256 / 2
    ensures Number(Recoded(w, STEPS)) == w && Residual(w, STEPS) == 0
  {
    HalfOfTwo256();
    Exhausted(w, 255);
  }

  /** The residual of a 256-bit scalar is one bit; the digits stand for the scalar exactly when it is 0. */
  lemma RecodesIffExhausted(w: nat)
    requires w < TWO_256
    ensures Residual(w, STEPS) <= 1
    ensures Number(Recoded(w, STEPS)) == w - TWO_256 * Residual(w, STEPS)
    ensures Number(Recoded(w, STEPS)) == w <==> Residual(w, STEPS) == 0
  {
    HalfOfTwo256();
    ResidualBound(w, 256, 256);
    assert Pow2(0) == 1;
    RecodingKeepsValue(w, STEPS);
  }

  /** 256 steps are not enough for every 256-bit scalar: the recoding of 2^256 - 1 needs digit 256. */
  lemma AllOnesNotExhausted()
    ensures Residual(TWO_256 - 1, STEPS) == 1
    ensures Number(Recoded(TWO_256 - 1, STEPS)) == -1
  {
    HalfOfTwo256();
    AllOnesStep(TWO_256 - 1);
    PowerResidual(255);
    RecodesIffExhausted(TWO_256 - 1);
  }

  lemma AllOnesStep(w: nat)
    requires w == TWO_256 - 1
    ensures Next(w) == TWO_256 / 2
  {
  }

  lemma {:induction false} PowerResidual(k: nat)
    ensures Residual(Pow2(k), k) == 1
  {
    if k > 0 {
      assert Pow2(k) == 2 * Pow2(k - 1);
      hide Pow2, Digit, Next;
      EvenStep(Pow2(k - 1));
      PowerResidual(k - 1);
    }
  }

  lemma HalfOfTwo256()
    ensures Pow2(255) == TWO_256 / 2 && Pow2(256) == TWO_256
  {
    Powers();
    hide Pow2;
    Joined(128, 127, 0x1_0000_0000_0000_0000_0000_0000_0000_0000, 0x8000_0000_0000_0000_0000_0000_0000_0000);
    Joined(128, 128, 0x1_0000_0000_0000_0000_0000_0000_0000_0000, 0x1_0000_0000_0000_0000_0000_0000_0000_0000);
  }

  // ----- the hardware -----

  /** A digit in four bits, two's complement. */
  function Nibble(d: int): nat {
    d % 16
  }

  class Recoder {
    var busy: bool
    var done: bool
    var digitValid: bool
    var digitIndex: nat
    var digit: nat
    var scalarWork: nat
    var bitIndex: nat

    constructor ()
      ensures !busy && !done && !digitValid && bitIndex == 0 && scalarWork == 0
    {
      busy, done, digitValid, digitIndex, digit, scalarWork, bitIndex := false, false, false, 0, 0, 0, 0;
    }

    /** One clock edge. */
    method Clock(start: bool, scalarIn: nat)
      requires scalarIn < TWO_256 && bitIndex < STEPS && scalarWork <= TWO_256
      modifies this
      ensures bitIndex < STEPS && scalarWork <= TWO_256
      ensures old(busy) ==>
        && digitValid && digit == Nibble(Digit(old(scalarWork))) && digitIndex == old(bitIndex)
        && scalarWork == Next(old(scalarWork))
        && (done <==> old(bitIndex) == 255) && busy == !done
        && bitIndex == (if done then 255 else old(bitIndex) + 1)
      ensures !old(busy) ==> !done && !digitValid && busy == start
      ensures !old(busy) && start ==> scalarWork == scalarIn && bitIndex == 0
    {
      hide Digit, Nibble;
      done, digitValid := false, false;
      if !busy {
        if start {
          busy, scalarWork, bitIndex := true, scalarIn, 0;
        }
      } else {
        var digitValue, adjusted := Adjust(scalarWork);
        digit, digitIndex, digitValid := digitValue, bitIndex, true;
        scalarWork := adjusted / 2;
        if bitIndex == 255 {
          busy, done := false, true;
        } else {
          bitIndex := bitIndex + 1;
        }
      }
    }

    /** The digit of the working register, and the register with that digit taken out. */
    static method Adjust(work: nat) returns (digitValue: nat, adjusted: nat)
      requires work <= TWO_256
      ensures digitValue == Nibble(Digit(work))
      ensures adjusted == work - Digit(work) && adjusted / 2 == Next(work) <= TWO_256
    {
      var lowNibble := work % 16;
      var digitAbs := 0;
      digitValue, adjusted := 0, work;
      if work % 2 == 1 {
        SameDigit(work);
        digitValue, digitAbs := DigitCase(lowNibble);
        hide Digit, Nibble;
        SmallDigit(lowNibble);
        if digitValue >= 8 {
          adjusted := (work + digitAbs) % TWO_257;
        } else {
          adjusted := (work - digitAbs) % TWO_257;
        }
      }
    }

    /** The case statement over the low nibble. */
    static method DigitCase(lowNibble: nat) returns (value: nat, magnitude: nat)
      requires lowNibble < 16 && lowNibble % 2 == 1
      ensures value == lowNibble == Nibble(Digit(lowNibble))
      ensures magnitude == if value >= 8 then -Digit(lowNibble) else Digit(lowNibble)
    {
      value, magnitude := 0, 0;
      if lowNibble == 1 {
        value, magnitude := 0x1, 1;
      } else if lowNibble == 3 {
        value, magnitude := 0x3, 3;
      } else if lowNibble == 5 {
        value, magnitude := 0x5, 5;
      } else if lowNibble == 7 {
        value, magnitude := 0x7, 7;
      } else if lowNibble == 9 {
        value, magnitude := 0x9, 7;
      } else if lowNibble == 11 {
        value, magnitude := 0xB, 5;
      } else if lowNibble == 13 {
        value, magnitude := 0xD, 3;
      } else if lowNibble == 15 {
        value, magnitude := 0xF, 1;
      }
    }

    /** A whole recoding, with the client storing each digit it is handed. */
    method Recode(scalarIn: nat, packed: array<nat>)
      requires scalarIn < TWO_256 && packed.Length == STEPS && !busy
      requires bitIndex < STEPS && scalarWork <= TWO_256
      modifies this, packed
      ensures !busy && bitIndex < STEPS && scalarWork <= TWO_256
      ensures forall i :: 0 <= i < STEPS ==> packed[i] == Nibble(Recoded(scalarIn, STEPS)[i])
      ensures scalarWork == Residual(scalarIn, STEPS)
    {
      hide Recoded, Residual;
      Clock(true, scalarIn);
      StartResidual(scalarIn);
      while busy
        invariant bitIndex < STEPS && scalarWork <= TWO_256
        invariant busy ==> scalarWork == Residual(scalarIn, bitIndex)
        invariant !busy ==> bitIndex == 255 && scalarWork == Residual(scalarIn, STEPS)
        invariant forall i :: 0 <= i < bitIndex ==> packed[i] == Nibble(Recoded(scalarIn, STEPS)[i])
        invariant !busy ==> packed[255] == Nibble(Recoded(scalarIn, STEPS)[255])
        decreases busy, STEPS - bitIndex
      {
        DigitsAt(scalarIn, STEPS, bitIndex);
        Clock(false, scalarIn);
        if digitValid {
          packed[digitIndex] := digit;
        }
      }
    }
  }

  lemma SameDigit(w: nat)
    ensures Digit(w) == Digit(w % 16) && w % 16 % 2 == w % 2
    ensures w >= Digit(w)
  {
    LowBit(w / 16, w % 16);
  }

  lemma LowBit(q: nat, r: nat)
    ensures (16 * q + r) % 2 == r % 2
  {
  }

  lemma SmallDigit(w: nat)
    ensures -7 <= Digit(w) <= 7
  {
  }

  lemma StartResidual(w: nat)
    ensures Residual(w, 0) == w
  {
  }
}
