/**
 * The SHA-512 compression function (FIPS 180-4 section 6.4.2) and the round engine that keeps only
 * the last sixteen schedule words (sha512_compress_core.v).
 */
module Sha512 {
  const ROUNDS: nat := 80
  const RING: nat := 16

  // ----- the standard -----

  /** The table of section 4.2.3, one case for each round. */
  function K(t: nat): bv64
    requires t < ROUNDS
  {
    if t < 1 then 0x428a2f98d728ae22 else if t < 2 then 0x7137449123ef65cd else if t < 3 then 0xb5c0fbcfec4d3b2f else
    if t < 4 then 0xe9b5dba58189dbbc else if t < 5 then 0x3956c25bf348b538 else if t < 6 then 0x59f111f1b605d019 else
    if t < 7 then 0x923f82a4af194f9b else if t < 8 then 0xab1c5ed5da6d8118 else if t < 9 then 0xd807aa98a3030242 else
    if t < 10 then 0x12835b0145706fbe else if t < 11 then 0x243185be4ee4b28c else if t < 12 then 0x550c7dc3d5ffb4e2 else
    if t < 13 then 0x72be5d74f27b896f else if t < 14 then 0x80deb1fe3b1696b1 else if t < 15 then 0x9bdc06a725c71235 else
    if t < 16 then 0xc19bf174cf692694 else if t < 17 then 0xe49b69c19ef14ad2 else if t < 18 then 0xefbe4786384f25e3 else
    if t < 19 then 0x0fc19dc68b8cd5b5 else if t < 20 then 0x240ca1cc77ac9c65 else if t < 21 then 0x2de92c6f592b0275 else
    if t < 22 then 0x4a7484aa6ea6e483 else if t < 23 then 0x5cb0a9dcbd41fbd4 else if t < 24 then 0x76f988da831153b5 else
    if t < 25 then 0x983e5152ee66dfab else if t < 26 then 0xa831c66d2db43210 else if t < 27 then 0xb00327c898fb213f else
    if t < 28 then 0xbf597fc7beef0ee4 else if t < 29 then 0xc6e00bf33da88fc2 else if t < 30 then 0xd5a79147930aa725 else
    if t < 31 then 0x06ca6351e003826f else if t < 32 then 0x142929670a0e6e70 else if t < 33 then 0x27b70a8546d22ffc else
    if t < 34 then 0x2e1b21385c26c926 else if t < 35 then 0x4d2c6dfc5ac42aed else if t < 36 then 0x53380d139d95b3df else
    if t < 37 then 0x650a73548baf63de else if t < 38 then 0x766a0abb3c77b2a8 else if t < 39 then 0x81c2c92e47edaee6 else
    if t < 40 then 0x92722c851482353b else if t < 41 then 0xa2bfe8a14cf10364 else if t < 42 then 0xa81a664bbc423001 else
    if t < 43 then 0xc24b8b70d0f89791 else if t < 44 then 0xc76c51a30654be30 else if t < 45 then 0xd192e819d6ef5218 else
    if t < 46 then 0xd69906245565a910 else if t < 47 then 0xf40e35855771202a else if t < 48 then 0x106aa07032bbd1b8 else
    if t < 49 then 0x19a4c116b8d2d0c8 else if t < 50 then 0x1e376c085141ab53 else if t < 51 then 0x2748774cdf8eeb99 else
    if t < 52 then 0x34b0bcb5e19b48a8 else if t < 53 then 0x391c0cb3c5c95a63 else if t < 54 then 0x4ed8aa4ae3418acb else
    if t < 55 then 0x5b9cca4f7763e373 else if t < 56 then 0x682e6ff3d6b2b8a3 else if t < 57 then 0x748f82ee5defb2fc else
    if t < 58 then 0x78a5636f43172f60 else if t < 59 then 0x84c87814a1f0ab72 else if t < 60 then 0x8cc702081a6439ec else
    if t < 61 then 0x90befffa23631e28 else if t < 62 then 0xa4506cebde82bde9 else if t < 63 then 0xbef9a3f7b2c67915 else
    if t < 64 then 0xc67178f2e372532b else if t < 65 then 0xca273eceea26619c else if t < 66 then 0xd186b8c721c0c207 else
    if t < 67 then 0xeada7dd6cde0eb1e else if t < 68 then 0xf57d4f7fee6ed178 else if t < 69 then 0x06f067aa72176fba else
    if t < 70 then 0x0a637dc5a2c898a6 else if t < 71 then 0x113f9804bef90dae else if t < 72 then 0x1b710b35131c471b else
    if t < 73 then 0x28db77f523047d84 else if t < 74 then 0x32caab7b40c72493 else if t < 75 then 0x3c9ebe0a15c9bebc else
    if t < 76 then 0x431d67c49c100d4c else if t < 77 then 0x4cc5d4becb3e42b6 else if t < 78 then 0x597f299cfc657e2a else
    if t < 79 then 0x5fcb6fab3ad6faec else 0x6c44198c4a475817
  }

  /** ROTR of section 3.2. */
  function Rotr(x: bv64, n: bv64): bv64
    requires 0 < n < 64
  {
    (x >> n) | (x << (64 - n))
  }

  /** Addition modulo 2^64. */
  function Plus(x: bv64, y: bv64): bv64 {
    x + y
  }

  function BigSigma0(x: bv64): bv64 {
    Rotr(x, 28) ^ Rotr(x, 34) ^ Rotr(x, 39)
  }

  function BigSigma1(x: bv64): bv64 {
    Rotr(x, 14) ^ Rotr(x, 18) ^ Rotr(x, 41)
  }

  function SmallSigma0(x: bv64): bv64 {
    Rotr(x, 1) ^ Rotr(x, 8) ^ (x >> 7)
  }

  function SmallSigma1(x: bv64): bv64 {
    Rotr(x, 19) ^ Rotr(x, 61) ^ (x >> 6)
  }

  function Ch(x: bv64, y: bv64, z: bv64): bv64 {
    (x & y) ^ (!x & z)
  }

  function Maj(x: bv64, y: bv64, z: bv64): bv64 {
    (x & y) ^ (x & z) ^ (y & z)
  }

  type Block = s: seq<bv64> | |s| == RING witness seq(RING, _ => 0)

  function NextScheduled(w2: bv64, w7: bv64, w15: bv64, w16: bv64): bv64 {
    Plus(Plus(Plus(SmallSigma1(w2), w7), SmallSigma0(w15)), w16)
  }

  /** The message schedule. */
  function W(block: Block, t: nat): bv64 {
    if t < RING then block[t]
    else NextScheduled(W(block, t - 2), W(block, t - 7), W(block, t - 15), W(block, t - 16))
  }

  datatype Words = Words(a: bv64, b: bv64, c: bv64, d: bv64, e: bv64, f: bv64, g: bv64, h: bv64)

  function Round(s: Words, k: bv64, w: bv64): Words {
    var t1 := Plus(Plus(Plus(Plus(s.h, BigSigma1(s.e)), Ch(s.e, s.f, s.g)), k), w);
    var t2 := Plus(BigSigma0(s.a), Maj(s.a, s.b, s.c));
    Words(Plus(t1, t2), s.a, s.b, s.c, Plus(s.d, t1), s.e, s.f, s.g)
  }

  /** The working variables after t rounds. */
  function Rounds(h: Words, block: Block, t: nat): Words
    requires t <= ROUNDS
    decreases t, h
  {
    if t == 0 then h else Round(Rounds(h, block, t - 1), K(t - 1), W(block, t - 1))
  }

  function FeedForward(h: Words, s: Words): Words {
    Words(Plus(h.a, s.a), Plus(h.b, s.b), Plus(h.c, s.c), Plus(h.d, s.d),
      Plus(h.e, s.e), Plus(h.f, s.f), Plus(h.g, s.g), Plus(h.h, s.h))
  }

  function Compress(h: Words, block: Block): Words {
    FeedForward(h, Rounds(h, block, ROUNDS))
  }

  // ----- the round engine -----

  class CompressCore {
    var busy: bool
    var done: bool
    var hOut: Words
    var roundIndex: nat
    var regs: Words
    const wMem: array<bv64>

    constructor ()
      ensures fresh(wMem) && wMem.Length == RING && !busy && !done
    {
      wMem := new bv64[16];
      busy, done, roundIndex := false, false, 0;
      hOut, regs := Words(0, 0, 0, 0, 0, 0, 0, 0), Words(0, 0, 0, 0, 0, 0, 0, 0);
    }

    ghost predicate Ring(block: Block, t: nat)
      reads wMem
    {
      RingHolds(wMem[..], block, t)
    }

    ghost predicate InRound(h: Words, block: Block)
      reads this, wMem
    {
      busy && wMem.Length == RING && roundIndex < ROUNDS && Ring(block, roundIndex) && regs == Rounds(h, block, roundIndex)
    }

    method Load(h: Words, block: Block)
      requires wMem.Length == RING
      modifies this, wMem
      ensures InRound(h, block) && roundIndex == 0 && !done
    {
      hide RingHolds, Round, K;
      for i := 0 to RING
        invariant forall j :: 0 <= j < i ==> wMem[j] == block[j]
      {
        wMem[i] := block[i];
      }
      assert wMem[..] == block;
      RingStart(block);
      busy, done, roundIndex, regs := true, false, 0, h;
    }

    /** The schedule word of this round; from round 16 on it replaces the oldest word of the ring. */
    method NextWord(ghost block: Block) returns (w: bv64)
      requires wMem.Length == RING && Ring(block, roundIndex) && roundIndex < ROUNDS
      modifies wMem
      ensures w == W(block, roundIndex) && Ring(block, roundIndex + 1)
    {
      hide NextScheduled, W, RingHolds;
      ghost var ring := wMem[..];
      var i := roundIndex % RING;
      if roundIndex < RING {
        w := wMem[i];
        RingRead(ring, block, roundIndex);
      } else {
        w := Recur(block, i);
        wMem[i] := w;
        RingReplaced(ring, block, roundIndex, w);
        assert wMem[..] == ring[i := w];
      }
    }

    method Recur(ghost block: Block, i: nat) returns (w: bv64)
      requires wMem.Length == RING && Ring(block, roundIndex) && RING <= roundIndex && i == roundIndex % RING
      ensures w == W(block, roundIndex)
    {
      hide W, NextScheduled, RingHolds;
      RingTaps(wMem[..], block, roundIndex);
      var w2, w7, w15, w16 := wMem[(i + 14) % RING], wMem[(i + 9) % RING], wMem[(i + 1) % RING], wMem[i];
      w := NextScheduled(w2, w7, w15, w16);
    }

    /** One clock edge while busy: one round, and after round 79 the feed-forward. */
    method Clock(h: Words, ghost block: Block)
      requires InRound(h, block)
      modifies this, wMem
      ensures old(roundIndex) < 79 ==> InRound(h, block) && !done && roundIndex == old(roundIndex) + 1
      ensures old(roundIndex) == 79 ==> !busy && done && hOut == Compress(h, block)
    {
      hide W, Plus, BigSigma0, BigSigma1, Ch, Maj, K, Round, Rounds, FeedForward, Ring;
      var w := NextWord(block);
      var next := RoundLogic(regs, K(roundIndex), w);
      RoundsStep(h, block, roundIndex);
      done := false;
      if roundIndex == 79 {
        busy, done := false, true;
        hOut := Words(Plus(h.a, next.a), Plus(h.b, next.b), Plus(h.c, next.c), Plus(h.d, next.d),
          Plus(h.e, next.e), Plus(h.f, next.f), Plus(h.g, next.g), Plus(h.h, next.h));
        Forwarded(h, next);
      } else {
        roundIndex, regs := roundIndex + 1, next;
      }
    }

    static method RoundLogic(s: Words, k: bv64, w: bv64) returns (next: Words)
      ensures next == Round(s, k, w)
    {
      hide Plus, BigSigma0, BigSigma1, Ch, Maj;
      var temp1 := Plus(Plus(Plus(Plus(s.h, BigSigma1(s.e)), Ch(s.e, s.f, s.g)), k), w);
      var temp2 := Plus(BigSigma0(s.a), Maj(s.a, s.b, s.c));
      next := Words(Plus(temp1, temp2), s.a, s.b, s.c, Plus(s.d, temp1), s.e, s.f, s.g);
    }

    /** Eighty rounds from start to done compute the compression function. */
    method Run(h: Words, block: Block) returns (r: Words)
      requires wMem.Length == RING
      modifies this, wMem
      ensures !busy && r == hOut == Compress(h, block)
    {
      hide Compress, Rounds, W, Round, K;
      Load(h, block);
      while busy
        invariant busy ==> InRound(h, block)
        invariant !busy ==> hOut == Compress(h, block)
        decreases busy, ROUNDS - roundIndex
      {
        Clock(h, block);
      }
      r := hOut;
    }
  }

  lemma RoundsStep(h: Words, block: Block, t: nat)
    requires t < ROUNDS
    ensures Rounds(h, block, t + 1) == Round(Rounds(h, block, t), K(t), W(block, t))
  {
    hide Round, K, W;
  }

  lemma Forwarded(h: Words, s: Words)
    ensures FeedForward(h, s) == Words(Plus(h.a, s.a), Plus(h.b, s.b), Plus(h.c, s.c), Plus(h.d, s.d),
        Plus(h.e, s.e), Plus(h.f, s.f), Plus(h.g, s.g), Plus(h.h, s.h))
  {
    hide Plus;
  }

  /** The ring holds the sixteen schedule words before the next one. */
  ghost predicate RingHolds(ring: seq<bv64>, block: Block, t: nat) {
    && |ring| == RING
    && forall i :: First(t) <= i < First(t) + RING ==> ring[i % RING] == W(block, i)
  }

  function First(t: nat): nat {
    if t < RING then 0 else t - RING
  }

  lemma RingStart(block: Block)
    ensures RingHolds(block, block, 0)
  {
  }

  lemma RingRead(ring: seq<bv64>, block: Block, t: nat)
    requires RingHolds(ring, block, t) && t < RING
    ensures ring[t % RING] == W(block, t) && RingHolds(ring, block, t + 1)
  {
    hide W;
  }

  /** Before a round from 16 on, the four taps are the words the schedule recurs on. */
  lemma RingTaps(ring: seq<bv64>, block: Block, t: nat)
    requires RingHolds(ring, block, t) && RING <= t
    ensures var i := t % RING;
      W(block, t) == NextScheduled(ring[(i + 14) % RING], ring[(i + 9) % RING], ring[(i + 1) % RING], ring[i])
  {
    RingSlots(t);
    ScheduleStep(block, t);
    hide W, NextScheduled;
    assert ring[(t - 2) % RING] == W(block, t - 2) && ring[(t - 7) % RING] == W(block, t - 7);
    assert ring[(t - 15) % RING] == W(block, t - 15) && ring[(t - 16) % RING] == W(block, t - 16);
  }

  /** Overwriting the oldest word with the new one moves the window on. */
  lemma RingReplaced(ring: seq<bv64>, block: Block, t: nat, w: bv64)
    requires RingHolds(ring, block, t) && RING <= t && w == W(block, t)
    ensures RingHolds(ring[t % RING := w], block, t + 1)
  {
    hide W;
    var next := ring[t % RING := w];
    forall k | First(t + 1) <= k < First(t + 1) + RING ensures next[k % RING] == W(block, k) {
      if k < t {
        DistinctSlots(k, t);
      }
    }
  }

  lemma ScheduleStep(block: Block, t: nat)
    requires RING <= t
    ensures W(block, t) == NextScheduled(W(block, t - 2), W(block, t - 7), W(block, t - 15), W(block, t - 16))
  {
    hide NextScheduled;
  }

  lemma RingSlots(t: nat)
    requires t >= RING
    ensures var i := t % RING;
      (i + 14) % RING == (t - 2) % RING && (i + 9) % RING == (t - 7) % RING
      && (i + 1) % RING == (t - 15) % RING && i == (t - 16) % RING
  {
    SlotBack(t, 2);
    SlotBack(t, 7);
    SlotBack(t, 15);
    SlotBack(t, 16);
  }

  lemma SlotBack(t: nat, k: nat)
    requires t >= RING && k <= RING
    ensures (t % RING + RING - k) % RING == (t - k) % RING
  {
    assert t - k == 16 * (t / 16 - 1) + (t % 16 + 16 - k);
  }

  lemma DistinctSlots(k: nat, t: nat)
    requires k < t < k + RING
    ensures k % RING != t % RING
  {
  }
}
