/** Fixed-width registers as natural numbers: powers, and values of little-endian digit strings. */
module Bits {

  // ----- powers -----

  function Pow(b: nat, n: nat): nat {
    if n == 0 then 1 else b * Pow(b, n - 1)
  }

  function Pow2(n: nat): nat {
    Pow(2, n)
  }

  lemma PowPositive(b: nat, n: nat)
    requires b > 0
    ensures Pow(b, n) > 0
  {
  }

  lemma PowAdd(b: nat, m: nat, n: nat)
    ensures Pow(b, m + n) == Pow(b, m) * Pow(b, n)
  {
    if m > 0 {
      PowAdd(b, m - 1, n);
      Regroup(b, 0, Pow(b, m - 1), Pow(b, n));
    }
  }

  lemma PowMonotone(b: nat, m: nat, n: nat)
    requires b > 0 && m <= n
    ensures Pow(b, m) <= Pow(b, n)
  {
    PowAdd(b, m, n - m);
    PowPositive(b, n - m);
    MulLe(Pow(b, m), 1, Pow(b, n - m));
  }

  lemma Joined(m: nat, n: nat, a: nat, b: nat)
    requires Pow2(m) == a && Pow2(n) == b
    ensures Pow2(m + n) == a * b
  {
    PowAdd(2, m, n);
  }

  /** Powers of two as numbers. */
  lemma Powers()
    ensures Pow2(0) == 1 && Pow2(8) == 0x100 && Pow2(32) == 0x1_0000_0000 && Pow2(64) == 0x1_0000_0000_0000_0000
    ensures Pow2(127) == 0x8000_0000_0000_0000_0000_0000_0000_0000
    ensures Pow2(128) == 0x1_0000_0000_0000_0000_0000_0000_0000_0000
  {
    assert Pow2(0) == 1 && Pow2(8) == 0x100 && Pow2(7) == 0x80;
    hide Pow2;
    Joined(8, 8, 0x100, 0x100);
    Joined(8, 7, 0x100, 0x80);
    Joined(16, 16, 0x1_0000, 0x1_0000);
    Joined(16, 15, 0x1_0000, 0x8000);
    Joined(32, 32, 0x1_0000_0000, 0x1_0000_0000);
    Joined(32, 31, 0x1_0000_0000, 0x8000_0000);
    Joined(64, 64, 0x1_0000_0000_0000_0000, 0x1_0000_0000_0000_0000);
    Joined(64, 63, 0x1_0000_0000_0000_0000, 0x8000_0000_0000_0000);
  }

  // ----- division and multiplication facts -----

  lemma MulLe(a: nat, b: nat, c: nat)
    requires b <= c
    ensures a * b <= a * c
  {
  }

  lemma Distribute(p: nat, v: nat, x: nat)
    ensures p * (v + x) == p * v + p * x
  {
  }

  lemma Regroup(b: nat, v: nat, p: nat, w: nat)
    ensures b * (v + p * w) == b * v + (b * p) * w
  {
    assert b * (p * w) == (b * p) * w;
  }

  /** The quotient and remainder are the only ones. */
  lemma DivModUnique(n: int, d: int, q: int, r: int)
    requires 0 <= r < d && n == d * q + r
    ensures n / d == q && n % d == r
  {
    var k := n / d - q;
    assert n % d - r == -(d * k);
    assert k >= 1 ==> d * k >= d;
    assert k <= -1 ==> d * k <= -d;
  }

  lemma DivDiv(n: nat, b: nat, c: nat)
    requires b > 0 && c > 0
    ensures b * c > 0
    ensures n / (b * c) == n / b / c
  {
    var q, r := n / b, n % b;
    assert b * c > 0;
    assert n == (b * c) * (q / c) + (b * (q % c) + r) by {
      assert q == c * (q / c) + q % c;
      assert b * q == b * (c * (q / c)) + b * (q % c);
      assert b * (c * (q / c)) == (b * c) * (q / c);
    }
    assert b * (q % c) <= b * (c - 1) by { MulLe(b, q % c, c - 1); }
    DivModUnique(n, b * c, q / c, b * (q % c) + r);
  }

  lemma DivBelow(n: nat, d: nat, m: nat)
    requires d > 0 && n < d * m
    ensures n / d < m
  {
    var q := n / d;
    assert n == d * q + n % d;
    assert q >= m ==> d * q >= d * m;
  }

  // ----- little-endian digit strings -----

  /** The value of digits s, least significant first, in the given base. */
  function Value(base: nat, s: seq<nat>): nat {
    if s == [] then 0 else s[0] + base * Value(base, s[1..])
  }

  ghost predicate Below(s: seq<nat>, bound: nat) {
    forall i :: 0 <= i < |s| ==> s[i] < bound
  }

  /** The low `count` digits of n. */
  function Digits(base: nat, n: nat, count: nat): (s: seq<nat>)
    requires base > 0
    ensures |s| == count
    ensures Below(s, base)
    decreases count
  {
    if count == 0 then [] else [n % base] + Digits(base, n / base, count - 1)
  }

  lemma {:induction false} ValueAppend(base: nat, s: seq<nat>, t: seq<nat>)
    ensures Value(base, s + t) == Value(base, s) + Pow(base, |s|) * Value(base, t)
  {
    if s == [] {
      assert s + t == t;
    } else {
      ValueAppend(base, s[1..], t);
      assert (s + t)[1..] == s[1..] + t;
      Regroup(base, Value(base, s[1..]), Pow(base, |s| - 1), Value(base, t));
    }
  }

  lemma ValueCons(base: nat, x: nat, s: seq<nat>)
    ensures Value(base, [x] + s) == x + base * Value(base, s)
  {
    assert ([x] + s)[1..] == s;
  }

  lemma ValueSnoc(base: nat, s: seq<nat>, x: nat)
    ensures Value(base, s + [x]) == Value(base, s) + Pow(base, |s|) * x
  {
    ValueAppend(base, s, [x]);
    assert Value(base, [x]) == x + base * Value(base, []);
  }

  /** Splitting a digit string splits its value. */
  lemma ValueSplit(base: nat, s: seq<nat>, k: nat)
    requires k <= |s|
    ensures Value(base, s) == Value(base, s[..k]) + Pow(base, k) * Value(base, s[k..])
  {
    ValueAppend(base, s[..k], s[k..]);
    assert s[..k] + s[k..] == s;
  }

  lemma {:induction false} ValueUpdate(base: nat, s: seq<nat>, k: nat, x: nat)
    requires k < |s|
    ensures Value(base, s[k := s[k] + x]) == Value(base, s) + Pow(base, k) * x
  {
    var t := s[k := s[k] + x];
    ValueSplit(base, s, k);
    ValueSplit(base, t, k);
    assert t[..k] == s[..k];
    assert t[k..][1..] == s[k..][1..];
    assert Value(base, t[k..]) == Value(base, s[k..]) + x;
    Distribute(Pow(base, k), Value(base, s[k..]), x);
  }

  lemma {:induction false} ValueBound(base: nat, s: seq<nat>)
    requires base > 0 && Below(s, base)
    ensures Value(base, s) < Pow(base, |s|)
  {
    if s != [] {
      ValueBound(base, s[1..]);
      MulLe(base, Value(base, s[1..]) + 1, Pow(base, |s| - 1));
    }
  }

  lemma {:induction false} ValueZeros(base: nat, s: seq<nat>)
    requires forall i :: 0 <= i < |s| ==> s[i] == 0
    ensures Value(base, s) == 0
  {
    if s != [] {
      ValueZeros(base, s[1..]);
    }
  }

  lemma {:induction false} ValueOfDigits(base: nat, n: nat, count: nat)
    requires base > 0 && n < Pow(base, count)
    ensures Value(base, Digits(base, n, count)) == n
    decreases count
  {
    if count > 0 {
      Division(n, base);
      PowStep(base, count);
      DigitsStep(base, n, count);
      hide Pow, Digits, Value;
      DivBelow(n, base, Pow(base, count - 1));
      ValueOfDigits(base, n / base, count - 1);
      ValueCons(base, n % base, Digits(base, n / base, count - 1));
    } else {
      DigitsEmpty(base, n);
    }
  }

  lemma Division(n: nat, d: nat)
    requires d > 0
    ensures n == d * (n / d) + n % d
  {
  }

  lemma PowStep(b: nat, n: nat)
    requires n > 0
    ensures Pow(b, n) == b * Pow(b, n - 1)
  {
  }

  lemma DigitsStep(base: nat, n: nat, count: nat)
    requires base > 0 && count > 0
    ensures Digits(base, n, count) == [n % base] + Digits(base, n / base, count - 1)
  {
  }

  lemma DigitsEmpty(base: nat, n: nat)
    requires base > 0
    ensures Digits(base, n, 0) == [] && (n < Pow(base, 0) ==> n == 0)
  {
  }

  lemma {:induction false} DigitsOfValue(base: nat, s: seq<nat>)
    requires base > 0 && Below(s, base)
    ensures Digits(base, Value(base, s), |s|) == s
  {
    if s != [] {
      DigitsOfValue(base, s[1..]);
      DivModUnique(Value(base, s), base, Value(base, s[1..]), s[0]);
    }
  }

  /** Digit k is what a part-select of the register at that position reads. */
  lemma {:induction false} DigitAt(base: nat, n: nat, count: nat, k: nat)
    requires base > 0 && k < count
    ensures Pow(base, k) > 0
    ensures Digits(base, n, count)[k] == n / Pow(base, k) % base
    decreases k
  {
    PowPositive(base, k);
    DigitsStep(base, n, count);
    if k > 0 {
      PowStep(base, k);
      hide Pow, Digits;
      DigitAt(base, n / base, count - 1, k - 1);
      DivDiv(n, base, Pow(base, k - 1));
    } else {
      assert n / 1 == n;
    }
  }
}
