/**
 * How the daemon lays a batch out in the two memories (tools/kv260_sigv_daemon/src/accelerator.rs):
 * little-endian words, a zero-padded tail, and 96 bytes for each job.
 */
module Payload {
  import opened Bits
  import BatchSpec
  import Sha512Stream

  const TWO_32: nat := 0x1_0000_0000
  const JOB_BYTES: nat := 96

  datatype WriteError = PayloadTooLarge | Misaligned
  datatype Result<T, E> = Ok(value: T) | Err(error: E)

  // ----- words -----

  /** Byte i of the payload, zero past its end. */
  function ByteAt(data: seq<nat>, i: nat): nat {
    if i < |data| then data[i] else 0
  }

  /** Word k of a payload: four bytes, least significant first. */
  function WordAt(data: seq<nat>, k: nat): nat {
    Value(256, [ByteAt(data, 4 * k), ByteAt(data, 4 * k + 1), ByteAt(data, 4 * k + 2), ByteAt(data, 4 * k + 3)])
  }

  /** A region of n words holding a payload and zeros after it. */
  function Layout(data: seq<nat>, n: nat): (words: seq<nat>)
    ensures |words| == n
  {
    seq<nat>(n, k requires 0 <= k < n => WordAt(data, k))
  }

  /** write_bytes_as_u32_words: whole words, a padded tail, then zeros to the end of the region. */
  method WriteBytesAsWords(data: seq<nat>, regionSize: nat, region: array<nat>) returns (r: Result<(), WriteError>)
    requires Below(data, 256) && region.Length == regionSize / 4
    modifies region
    ensures r.Ok? <==> |data| <= regionSize && regionSize % 4 == 0
    ensures r.Ok? ==> region[..] == Layout(data, region.Length)
    ensures r.Err? ==> region[..] == old(region[..]) && r.error == if |data| > regionSize then PayloadTooLarge else Misaligned
  {
    hide WordAt, Value;
    if |data| > regionSize {
      return Err(PayloadTooLarge);
    }
    if regionSize % 4 != 0 {
      return Err(Misaligned);
    }
    var offset := 0;
    var fullWordLimit := |data| / 4 * 4;
    while offset < fullWordLimit
      invariant offset <= fullWordLimit && offset % 4 == 0
      invariant forall k :: 0 <= k < offset / 4 ==> region[k] == WordAt(data, k)
    {
      WholeWord(data, offset / 4);
      region[offset / 4] := Value(256, data[offset..offset + 4]);
      offset := offset + 4;
    }
    if offset < |data| {
      var tail := data[offset..] + seq(4 - (|data| - offset), _ => 0);
      TailWord(data, offset / 4);
      region[offset / 4] := Value(256, tail);
      offset := offset + 4;
    }
    while offset < regionSize
      invariant offset % 4 == 0 && |data| <= offset <= regionSize
      invariant forall k :: 0 <= k < offset / 4 ==> region[k] == WordAt(data, k)
    {
      ZeroWord(data, offset / 4);
      region[offset / 4] := 0;
      offset := offset + 4;
    }
    return Ok(());
  }

  lemma WholeWord(data: seq<nat>, k: nat)
    requires 4 * k + 4 <= |data|
    ensures WordAt(data, k) == Value(256, data[4 * k..4 * k + 4])
  {
    assert data[4 * k..4 * k + 4] == [ByteAt(data, 4 * k), ByteAt(data, 4 * k + 1), ByteAt(data, 4 * k + 2), ByteAt(data, 4 * k + 3)];
  }

  lemma TailWord(data: seq<nat>, k: nat)
    requires 4 * k < |data| < 4 * k + 4
    ensures WordAt(data, k) == Value(256, data[4 * k..] + seq(4 - (|data| - 4 * k), _ => 0))
  {
    assert data[4 * k..] + seq(4 - (|data| - 4 * k), _ => 0)
      == [ByteAt(data, 4 * k), ByteAt(data, 4 * k + 1), ByteAt(data, 4 * k + 2), ByteAt(data, 4 * k + 3)];
  }

  lemma ZeroWord(data: seq<nat>, k: nat)
    requires |data| <= 4 * k
    ensures WordAt(data, k) == 0
  {
    ValueZeros(256, [0, 0, 0, 0]);
  }

  // ----- reading back -----

  /** Each byte of a stored word is the payload byte at its position. */
  lemma BytesBack(data: seq<nat>, i: nat)
    requires Below(data, 256) && i < |data|
    ensures Sha512Stream.ByteOf(WordAt(data, i / 4), i % 4) == data[i]
  {
    var k := i / 4;
    var s := [ByteAt(data, 4 * k), ByteAt(data, 4 * k + 1), ByteAt(data, 4 * k + 2), ByteAt(data, 4 * k + 3)];
    assert i == 4 * k + i % 4;
    DigitsOfValue(256, s);
    DigitAt(256, Value(256, s), 4, i % 4);
    hide Value, Digits, Pow;
  }

  /** The message the hash engine reads from the region is the message the daemon wrote. */
  lemma MessageBack(message: seq<nat>, n: nat, prefix0: nat, prefix1: nat)
    requires Below(message, 256) && |message| <= 4 * n
    ensures Sha512Stream.MessageFrom(Sha512Stream.Job(prefix0, prefix1, Layout(message, n), |message|), 0) == message
  {
    hide WordAt, Sha512Stream.ByteOf;
    forall i | 0 <= i < |message| ensures Sha512Stream.ByteOf(Layout(message, n)[i / 4], i % 4) == message[i] {
      BytesBack(message, i);
    }
  }

  // ----- jobs -----

  datatype Job = Job(pubkey: seq<nat>, signature: seq<nat>)

  ghost predicate IsJob(j: Job) {
    |j.pubkey| == 32 && |j.signature| == 64 && Below(j.pubkey, 256) && Below(j.signature, 256)
  }

  ghost predicate AreJobs(jobs: seq<Job>) {
    forall i :: 0 <= i < |jobs| ==> IsJob(jobs[i])
  }

  /** The bytes of all jobs, one after the other. */
  function Packed(jobs: seq<Job>): seq<nat> {
    if jobs == [] then [] else Packed(jobs[..|jobs| - 1]) + (jobs[|jobs| - 1].pubkey + jobs[|jobs| - 1].signature)
  }

  method PackJobs(jobs: seq<Job>) returns (bytes: seq<nat>)
    ensures bytes == Packed(jobs)
  {
    bytes := [];
    for i := 0 to |jobs|
      invariant bytes == Packed(jobs[..i])
    {
      assert jobs[..i + 1][..i] == jobs[..i];
      bytes := bytes + jobs[i].pubkey + jobs[i].signature;
    }
    assert jobs[..|jobs|] == jobs;
  }

  lemma {:induction false} PackedAt(jobs: seq<Job>, i: nat)
    requires AreJobs(jobs) && i < |jobs|
    ensures |Packed(jobs)| == JOB_BYTES * |jobs| && Below(Packed(jobs), 256)
    ensures Packed(jobs)[JOB_BYTES * i..JOB_BYTES * i + JOB_BYTES] == jobs[i].pubkey + jobs[i].signature
    decreases |jobs|
  {
    var n := |jobs| - 1;
    assert IsJob(jobs[n]);
    if n == 0 {
      AppendJob([], jobs[n], 0, 0);
      assert Packed(jobs[..0]) == [];
    } else {
      assert AreJobs(jobs[..n]);
      PackedAt(jobs[..n], if i < n then i else 0);
      AppendJob(Packed(jobs[..n]), jobs[n], n, if i < n then i else 0);
      assert i < n ==> jobs[..n][i] == jobs[i];
    }
    hide Packed;
  }

  lemma AppendJob(before: seq<nat>, j: Job, n: nat, i: nat)
    requires IsJob(j) && |before| == JOB_BYTES * n && Below(before, 256) && (n == 0 || i < n)
    ensures var all := before + (j.pubkey + j.signature);
      && |all| == JOB_BYTES * (n + 1) && Below(all, 256)
      && all[JOB_BYTES * n..JOB_BYTES * n + JOB_BYTES] == j.pubkey + j.signature
      && (n > 0 ==> all[JOB_BYTES * i..JOB_BYTES * i + JOB_BYTES] == before[JOB_BYTES * i..JOB_BYTES * i + JOB_BYTES])
  {
  }

  /** Eight 32-bit lanes of 32 bytes. */
  function Lanes(bytes: seq<nat>): seq<nat>
    requires |bytes| == 32
  {
    seq<nat>(8, k requires 0 <= k < 8 => WordAt(bytes, k))
  }

  /** The record registers that hold a job. */
  function RecordOf(j: Job): BatchSpec.Record
    requires |j.pubkey| == 32 && |j.signature| == 64
  {
    BatchSpec.Record(Lanes(j.pubkey), Lanes(j.signature[..32]), Lanes(j.signature[32..]))
  }

  /** The record at word base 24 i is job i. */
  lemma RecordBack(jobs: seq<Job>, n: nat, i: nat, verdict: BatchSpec.Record -> bool)
    requires AreJobs(jobs) && i < |jobs| && JOB_BYTES * |jobs| <= 4 * n
    ensures IsJob(jobs[i])
    ensures 24 * i + 24 <= n
    ensures BatchSpec.Job(BatchSpec.World(Layout(Packed(jobs), n), verdict), i) == RecordOf(jobs[i])
  {
    hide WordAt, Packed, Layout, Lanes, BatchSpec.Job;
    PackedAt(jobs, i);
    LanesBack(Packed(jobs), jobs[i], i, n);
    JobIs(BatchSpec.World(Layout(Packed(jobs), n), verdict), i);
  }

  lemma JobIs(w: BatchSpec.World, i: nat)
    requires 24 * i + 24 <= |w.jobs|
    ensures var b := 24 * i;
      BatchSpec.Job(w, i) == BatchSpec.Record(w.jobs[b..b + 8], w.jobs[b + 8..b + 16], w.jobs[b + 16..b + 24])
  {
  }

  lemma LanesBack(packed: seq<nat>, j: Job, i: nat, n: nat)
    requires IsJob(j) && JOB_BYTES * i + JOB_BYTES <= |packed| <= 4 * n
    requires packed[JOB_BYTES * i..JOB_BYTES * i + JOB_BYTES] == j.pubkey + j.signature
    ensures var b, words := 24 * i, Layout(packed, n);
      && words[b..b + 8] == Lanes(j.pubkey)
      && words[b + 8..b + 16] == Lanes(j.signature[..32])
      && words[b + 16..b + 24] == Lanes(j.signature[32..])
  {
    hide WordAt;
    var b, words := 24 * i, Layout(packed, n);
    forall k | 0 <= k < 8
      ensures words[b + k] == WordAt(j.pubkey, k)
      ensures words[b + 8 + k] == WordAt(j.signature[..32], k)
      ensures words[b + 16 + k] == WordAt(j.signature[32..], k)
    {
      WordsOfJob(packed, j, i, k);
    }
  }

  lemma WordsOfJob(packed: seq<nat>, j: Job, i: nat, k: nat)
    requires IsJob(j) && JOB_BYTES * i + JOB_BYTES <= |packed| && k < 8
    requires packed[JOB_BYTES * i..JOB_BYTES * i + JOB_BYTES] == j.pubkey + j.signature
    ensures WordAt(packed, 24 * i + k) == WordAt(j.pubkey, k)
    ensures WordAt(packed, 24 * i + 8 + k) == WordAt(j.signature[..32], k)
    ensures WordAt(packed, 24 * i + 16 + k) == WordAt(j.signature[32..], k)
  {
    hide WordAt;
    var both := j.pubkey + j.signature;
    ShiftedWord(packed, both, JOB_BYTES * i, k);
    ShiftedWord(packed, both, JOB_BYTES * i, 8 + k);
    ShiftedWord(packed, both, JOB_BYTES * i, 16 + k);
    ShiftedWord(both, j.pubkey, 0, k);
    ShiftedWord(both, j.signature[..32], 32, k);
    ShiftedWord(both, j.signature[32..], 64, k);
  }

  /** A word of a slice at a multiple of four is a word of the whole. */
  lemma ShiftedWord(whole: seq<nat>, part: seq<nat>, at: nat, k: nat)
    requires at % 4 == 0 && at + |part| <= |whole| && whole[at..at + |part|] == part && 4 * k + 4 <= |part|
    ensures WordAt(whole, at / 4 + k) == WordAt(part, k)
  {
    assert 4 * (at / 4 + k) == at + 4 * k;
    hide Value;
    SameByte(whole, part, at, 4 * k);
    SameByte(whole, part, at, 4 * k + 1);
    SameByte(whole, part, at, 4 * k + 2);
    SameByte(whole, part, at, 4 * k + 3);
  }

  lemma SameByte(whole: seq<nat>, part: seq<nat>, at: nat, i: nat)
    requires at + |part| <= |whole| && whole[at..at + |part|] == part && i < |part|
    ensures ByteAt(whole, at + i) == ByteAt(part, i)
  {
    assert whole[at..at + |part|][i] == part[i];
  }

  /** The 256-bit number in the lanes is the little-endian number of the bytes. */
  lemma LanesNumber(bytes: seq<nat>)
    requires |bytes| == 32
    ensures Value(TWO_32, Lanes(bytes)) == Value(256, bytes)
  {
    hide WordAt;
    LanesFrom(bytes, 0);
    assert bytes[0..] == bytes && Lanes(bytes)[0..] == Lanes(bytes);
  }

  lemma {:induction false} LanesFrom(bytes: seq<nat>, k: nat)
    requires |bytes| == 32 && k <= 8
    ensures Value(TWO_32, Lanes(bytes)[k..]) == Value(256, bytes[4 * k..])
    decreases 8 - k
  {
    if k == 8 {
      assert Lanes(bytes)[8..] == [] && bytes[32..] == [];
    } else {
      LanesFrom(bytes, k + 1);
      WholeWord(bytes, k);
      ValueSplit(256, bytes[4 * k..], 4);
      assert bytes[4 * k..][..4] == bytes[4 * k..4 * k + 4];
      assert bytes[4 * k..][4..] == bytes[4 * (k + 1)..];
      assert Lanes(bytes)[k..][1..] == Lanes(bytes)[k + 1..];
      FourBytes();
      hide Pow, WordAt;
    }
  }

  lemma FourBytes()
    ensures Pow(256, 4) == TWO_32
  {
  }

  // ----- results -----

  /** mask_bits: bit i of the eight mask words, for the first `count` jobs. */
  function MaskBits(words: seq<nat>, count: nat): (bits: seq<bool>)
    requires |words| == 8 && count <= 256
    ensures |bits| == count
  {
    seq(count, i requires 0 <= i < count => MaskBit(words, i))
  }

  function MaskBit(words: seq<nat>, i: nat): bool
    requires |words| == 8 && i < 256
  {
    PowPositive(2, i % 32);
    words[i / 32] / Pow(2, i % 32) % 2 == 1
  }

  lemma MaskBitBack(mask: seq<bool>, words: seq<nat>, i: nat)
    requires |mask| == 256 && |words| == 8 && i < 256
    requires words[i / 32] == Value(2, seq<nat>(32, k requires 0 <= k < 32 => if mask[32 * (i / 32) + k] then 1 else 0))
    ensures MaskBit(words, i) == mask[i]
  {
    hide Value, Digits, Pow;
    var q, r := i / 32, i % 32;
    assert i == 32 * q + r;
    var bits := seq<nat>(32, k requires 0 <= k < 32 => if mask[32 * q + k] then 1 else 0);
    DigitsOfValue(2, bits);
    DigitAt(2, Value(2, bits), 32, r);
    assert bits[r] == if mask[i] then 1 else 0;
  }
}
