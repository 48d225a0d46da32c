/** SHA-512 of a byte string (FIPS 180-4 sections 5.1.2 and 6.4). */
module Sha512Hash {
  import opened Bits
  import Sha512

  const BLOCK_BYTES: nat := 128

  /** n bytes of v, most significant first. */
  function BigEndian(v: nat, n: nat): (s: seq<nat>)
    ensures |s| == n && Below(s, 256)
    decreases n
  {
    if n == 0 then [] else BigEndian(v / 256, n - 1) + [v % 256]
  }

  function Zeros(n: nat): (s: seq<nat>)
    ensures |s| == n && Below(s, 256)
  {
    seq(n, _ => 0)
  }

  /** The number of zero bytes between the byte 0x80 and the 16-byte length. */
  function ZeroBytes(length: nat): nat {
    (239 - length % BLOCK_BYTES) % BLOCK_BYTES
  }

  function Pad(message: seq<nat>): seq<nat> {
    message + [0x80] + Zeros(ZeroBytes(|message|)) + BigEndian(8 * |message|, 16)
  }

  /** The padding of section 5.1.2: the fewest zero bytes that fill the last block. */
  lemma PadFillsBlocks(message: seq<nat>, k: nat)
    ensures |Pad(message)| % BLOCK_BYTES == 0
    ensures (|message| + 1 + k + 16) % BLOCK_BYTES == 0 ==> k >= ZeroBytes(|message|)
  {
    hide BigEndian;
    ZeroBytesCases(|message|);
    Remainder(|message|, ZeroBytes(|message|));
    Remainder(|message|, k);
  }

  lemma ZeroBytesCases(length: nat)
    ensures ZeroBytes(length) == var r := length % 128; if r <= 111 then 111 - r else 239 - r
  {
  }

  lemma Remainder(n: nat, k: nat)
    ensures (n + 1 + k + 16) % 128 == (n % 128 + 1 + k + 16) % 128
  {
    var r := n % 128;
    assert n + 1 + k + 16 == 128 * (n / 128) + (r + 1 + k + 16);
    MultipleOff(n / 128, r + 1 + k + 16);
  }

  lemma MultipleOff(q: nat, r: nat)
    ensures (128 * q + r) % 128 == r % 128
  {
  }

  // ----- blocks and words -----

  function Reversed(s: seq<nat>): (r: seq<nat>)
    ensures |r| == |s|
  {
    seq(|s|, i requires 0 <= i < |s| => s[|s| - 1 - i])
  }

  /** Eight bytes as a word. */
  function WordAt(bytes: seq<nat>): bv64 {
    (Value(256, Reversed(bytes)) % 0x1_0000_0000_0000_0000) as bv64
  }

  function BlockOf(bytes: seq<nat>): Sha512.Block
    requires |bytes| == BLOCK_BYTES
  {
    seq(16, i requires 0 <= i < 16 => WordAt(bytes[8 * i..8 * i + 8]))
  }

  /** The chaining value after every whole block. */
  function HashBlocks(h: Sha512.Words, bytes: seq<nat>): Sha512.Words
    decreases |bytes|
  {
    if |bytes| < BLOCK_BYTES then h
    else
      var n := |bytes| - BLOCK_BYTES;
      Sha512.Compress(HashBlocks(h, bytes[..n]), BlockOf(bytes[n..]))
  }

  lemma HashBlocksStep(h: Sha512.Words, bytes: seq<nat>, last: seq<nat>)
    requires |last| == BLOCK_BYTES
    ensures HashBlocks(h, bytes + last) == Sha512.Compress(HashBlocks(h, bytes), BlockOf(last))
  {
    hide Sha512.Compress, BlockOf;
    assert (bytes + last)[..|bytes|] == bytes && (bytes + last)[|bytes|..] == last;
  }

  /** Whole blocks are hashed one after the other, each from the chaining value of those before it. */
  lemma {:induction false} HashBlocksJoin(h: Sha512.Words, a: seq<nat>, b: seq<nat>)
    requires |a| % BLOCK_BYTES == 0 && |b| % BLOCK_BYTES == 0
    ensures HashBlocks(h, a + b) == HashBlocks(HashBlocks(h, a), b)
    decreases |b|
  {
    if b == [] {
      assert a + b == a;
    } else {
      hide HashBlocks, Sha512.Compress, BlockOf;
      var n := |b| - BLOCK_BYTES;
      var front, last := b[..n], b[n..];
      HashBlocksJoin(h, a, front);
      assert b == front + last && a + b == a + front + last;
      HashBlocksStep(h, a + front, last);
      HashBlocksStep(HashBlocks(h, a), front, last);
    }
  }

  function InitialValue(): Sha512.Words {
    Sha512.Words(0x6a09e667f3bcc908, 0xbb67ae8584caa73b, 0x3c6ef372fe94f82b, 0xa54ff53a5f1d36f1,
      0x510e527fade682d1, 0x9b05688c2b3e6c1f, 0x1f83d9abfb41bd6b, 0x5be0cd19137e2179)
  }

  function Hash(message: seq<nat>): Sha512.Words {
    HashBlocks(InitialValue(), Pad(message))
  }

  // ----- the digest as a register -----

  function WordList(w: Sha512.Words): seq<bv64> {
    [w.a, w.b, w.c, w.d, w.e, w.f, w.g, w.h]
  }

  function WordValue(w: bv64): nat {
    w as nat
  }

  /** The words one after the other, as bytes. */
  function DigestBytes(words: seq<bv64>): seq<nat> {
    if words == [] then [] else DigestBytes(words[..|words| - 1]) + BigEndian(WordValue(words[|words| - 1]), 8)
  }

  /** The words one after the other, as one wide register. */
  function Packed(words: seq<bv64>): nat {
    if words == [] then 0
    else 0x1_0000_0000_0000_0000 * Packed(words[..|words| - 1]) + WordValue(words[|words| - 1])
  }

  lemma {:induction false} BigEndianJoin(hi: nat, m: nat, lo: nat, n: nat)
    requires lo < Pow(256, n)
    ensures BigEndian(hi * Pow(256, n) + lo, m + n) == BigEndian(hi, m) + BigEndian(lo, n)
    decreases n
  {
    if n > 0 {
      var p := Pow(256, n - 1);
      DivBelow(lo, 256, p);
      ShiftByte(hi, p, lo);
      BigEndianJoin(hi, m, lo / 256, n - 1);
    }
  }

  lemma ShiftByte(hi: nat, p: nat, lo: nat)
    ensures (hi * (256 * p) + lo) / 256 == hi * p + lo / 256 && (hi * (256 * p) + lo) % 256 == lo % 256
  {
    assert hi * (256 * p) == 256 * (hi * p);
    DivModUnique(256 * (hi * p) + lo, 256, hi * p + lo / 256, lo % 256);
  }

  /** The register holds the digest bytes in order. */
  lemma {:induction false} PackedBytes(words: seq<bv64>)
    ensures BigEndian(Packed(words), 8 * |words|) == DigestBytes(words)
  {
    hide WordValue, BigEndian, Pow;
    if words == [] {
      NoBytes(Packed(words));
    } else {
      var rest, w := words[..|words| - 1], words[|words| - 1];
      PackedBytes(rest);
      WordBelow(w);
      PackedStep(words);
      JoinWord(Packed(rest), |rest|, WordValue(w));
    }
  }

  lemma NoBytes(v: nat)
    ensures BigEndian(v, 0) == []
  {
  }

  lemma JoinWord(hi: nat, n: nat, lo: nat)
    requires lo < Pow(256, 8)
    ensures BigEndian(hi * Pow(256, 8) + lo, 8 * (n + 1)) == BigEndian(hi, 8 * n) + BigEndian(lo, 8)
  {
    hide Pow, BigEndian;
    BigEndianJoin(hi, 8 * n, lo, 8);
    assert 8 * (n + 1) == 8 * n + 8;
  }

  lemma PackedStep(words: seq<bv64>)
    requires words != []
    ensures Packed(words) == Packed(words[..|words| - 1]) * Pow(256, 8) + WordValue(words[|words| - 1])
  {
    EightBytes();
    hide Pow, WordValue;
  }

  lemma WordBelow(w: bv64)
    ensures WordValue(w) < Pow(256, 8)
  {
    EightBytes();
    hide Pow;
  }

  lemma EightBytes()
    ensures Pow(256, 8) == 0x1_0000_0000_0000_0000
  {
  }

  /** Reading a register from the top is reading its little-endian digits backwards. */
  lemma {:induction false} BigEndianIsReversed(v: nat, n: nat)
    ensures BigEndian(v, n) == Reversed(Digits(256, v, n))
    decreases n
  {
    if n > 0 {
      BigEndianIsReversed(v / 256, n - 1);
      var up := Digits(256, v, n);
      assert up == [v % 256] + Digits(256, v / 256, n - 1);
      hide Digits;
      assert Reversed(up) == Reversed(up[1..]) + [up[0]];
    }
  }
}
