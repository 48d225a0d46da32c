/**
 * The streaming hash of R, A and the message (sha512_stream_engine.v): a byte-emitting FSM that pads
 * on the fly, with the message read from a word memory through a registered port.
 */
module Sha512Stream {
  import opened Bits
  import opened Sha512Hash
  import Sha512

  datatype State = Idle | Prefix0 | Prefix1 | MsgReq | MsgWait | MsgLatch | MsgRead | Pad80 | PadZero | Length | Compressing

  /** What the engine is given: two 32-byte prefixes and a message in 32-bit little-endian words. */
  datatype Job = Job(prefix0: nat, prefix1: nat, memory: seq<nat>, length: nat)

  // ----- what has to be hashed -----

  /** Byte `select` of a word, counted from the least significant. */
  function ByteOf(word: nat, select: nat): (b: nat)
    ensures b < 256
  {
    PowPositive(256, select);
    word / Pow(256, select) % 256
  }

  function MessageByte(job: Job, i: nat): nat
    requires i < 4 * |job.memory|
  {
    ByteOf(job.memory[i / 4], i % 4)
  }

  /** Message bytes from position `from` on. */
  function MessageFrom(job: Job, from: nat): (s: seq<nat>)
    requires from <= job.length <= 4 * |job.memory|
    ensures |s| == job.length - from
  {
    seq<nat>(job.length - from, i requires 0 <= i < job.length - from => MessageByte(job, from + i))
  }

  function Input(job: Job): (s: seq<nat>)
    requires job.length <= 4 * |job.memory|
    ensures |s| == 64 + job.length
  {
    Digits(256, job.prefix0, 32) + (Digits(256, job.prefix1, 32) + MessageFrom(job, 0))
  }

  ghost function Padded(job: Job): seq<nat>
    requires job.length <= 4 * |job.memory|
  {
    Pad(Input(job))
  }

  // ----- what each state still has to emit -----

  /** The top n bytes of the 64-bit length register, as it shifts left. */
  function TopBytes(shift: nat, n: nat): seq<nat>
    decreases n
  {
    if n == 0 then [] else [shift / 0x100_0000_0000_0000] + TopBytes(ShiftLeft(shift), n - 1)
  }

  function ShiftLeft(shift: nat): nat {
    shift * 256 % 0x1_0000_0000_0000_0000
  }

  function Ending(zeros: nat, shift: nat, n: nat): seq<nat> {
    Zeros(zeros) + TopBytes(shift, n)
  }

  lemma {:induction false} TopBytesAreBigEndian(u: nat, n: nat)
    requires n <= 8 && u < Pow(256, n)
    ensures TopBytes(u * Pow(256, 8 - n), n) == BigEndian(u, n)
    decreases n
  {
    hide Pow, ShiftLeft, BigEndian;
    if n == 0 {
      NoBytes(u);
    } else {
      TopOf(u, n);
      BigEndianTop(u, n);
      TopBytesAreBigEndian(u % Pow(256, n - 1), n - 1);
    }
  }

  /** The leading byte of the length register, and what is left after the shift. */
  lemma TopOf(u: nat, n: nat)
    requires 0 < n <= 8 && u < Pow(256, n)
    ensures Pow(256, n - 1) > 0 && u % Pow(256, n - 1) < Pow(256, n - 1)
    ensures u * Pow(256, 8 - n) / 0x100_0000_0000_0000 == u / Pow(256, n - 1)
    ensures ShiftLeft(u * Pow(256, 8 - n)) == u % Pow(256, n - 1) * Pow(256, 8 - (n - 1))
  {
    var p, q := Pow(256, n - 1), Pow(256, 8 - n);
    PowPositive(256, n - 1);
    PowPositive(256, 8 - n);
    PowAdd(256, n - 1, 8 - n);
    assert n - 1 + (8 - n) == 7;
    assert Pow(256, 7) == 0x100_0000_0000_0000;
    assert Pow(256, 8 - (n - 1)) == 256 * q;
    hide Pow;
    ScaledDivision(u, p, q);
  }

  lemma ScaledDivision(u: nat, p: nat, q: nat)
    requires p > 0 && q > 0 && p * q == 0x100_0000_0000_0000
    ensures u * q / 0x100_0000_0000_0000 == u / p && ShiftLeft(u * q) == u % p * (256 * q)
  {
    var d, r := u / p, u % p;
    assert u * q == 0x100_0000_0000_0000 * d + r * q by { SplitProduct(u, p, q, d, r); }
    assert r * q < p * q by { BelowProduct(r, p, q); }
    DivModUnique(u * q, 0x100_0000_0000_0000, d, r * q);
    assert u * q * 256 == 0x1_0000_0000_0000_0000 * d + r * q * 256;
    DivModUnique(u * q * 256, 0x1_0000_0000_0000_0000, d, r * q * 256);
    assert r * q * 256 == r * (256 * q);
  }

  lemma SplitProduct(u: nat, p: nat, q: nat, d: nat, r: nat)
    requires u == p * d + r
    ensures u * q == p * q * d + r * q
  {
  }

  lemma BelowProduct(r: nat, p: nat, q: nat)
    requires r < p && q > 0
    ensures r * q < p * q
  {
  }

  lemma {:induction false} BigEndianTop(u: nat, n: nat)
    requires 0 < n && u < Pow(256, n)
    ensures Pow(256, n - 1) > 0
    ensures BigEndian(u, n) == [u / Pow(256, n - 1)] + BigEndian(u % Pow(256, n - 1), n - 1)
  {
    var p := Pow(256, n - 1);
    PowPositive(256, n - 1);
    DivBelow(u, p, 256);
    var d, r := u / p, u % p;
    assert u == d * p + r;
    BigEndianJoin(d, 1, r, n - 1);
    assert BigEndian(d, 1) == BigEndian(d / 256, 0) + [d % 256];
  }

  // ----- the engine -----

  ghost predicate Chained(h: Sha512.Words, bytes: seq<nat>) {
    h == HashBlocks(InitialValue(), bytes)
  }

  class StreamEngine {
    const addrWidth: nat
    const core: Sha512.CompressCore

    var state: State
    var resumeState: State
    var blocksRemaining: nat
    var blockByteIndex: nat
    var blockBuffer: seq<nat>
    var hashState: Sha512.Words
    var prefixShift: nat
    var prefixBytesLeft: nat
    var messageBytesLeft: nat
    var zeroPadBytesLeft: nat
    var lengthShift: nat
    var lengthBytesLeft: nat
    var messageAddr: nat
    var msgWordBuf: nat
    var msgByteSel: nat
    var msgRdEn: bool
    var msgRdAddr: nat
    var busy: bool
    var done: bool
    var error: bool
    var digestOut: Sha512.Words

    /** The output register of the message memory; engine 0 is its only reader and always granted. */
    var msgRdData: nat

    /** Every byte shifted into the block buffer so far, and how many of them are in hashState. */
    ghost var fed: seq<nat>
    ghost var hashed: nat

    constructor (width: nat)
      ensures Idle() && addrWidth == width && fresh(core) && fresh(core.wMem)
    {
      addrWidth := width;
      core := new Sha512.CompressCore();
      state, resumeState, blocksRemaining, blockByteIndex := State.Idle, State.Idle, 0, 0;
      blockBuffer, hashState := Zeros(BLOCK_BYTES), InitialValue();
      prefixShift, prefixBytesLeft, messageBytesLeft, zeroPadBytesLeft := 0, 0, 0, 0;
      lengthShift, lengthBytesLeft, messageAddr, msgWordBuf, msgByteSel := 0, 0, 0, 0, 0;
      msgRdEn, msgRdAddr, msgRdData, busy, done, error := false, 0, 0, false, false, false;
      digestOut := Sha512.Words(0, 0, 0, 0, 0, 0, 0, 0);
      fed, hashed := [], 0;
    }

    ghost predicate Idle() reads this {
      core.wMem.Length == Sha512.RING && state == State.Idle && !busy && !msgRdEn
    }

    ghost predicate Fits(job: Job) {
      job.length <= Pow2(addrWidth) <= 4 * |job.memory|
    }

    /** The last `fill` bytes of the buffer are the bytes fed but not yet hashed. */
    ghost predicate Buffered(fill: nat)
      reads this`blockBuffer, this`fed, this`hashed, this`hashState
    {
      hide HashBlocks;
      && |blockBuffer| == BLOCK_BYTES && fill <= BLOCK_BYTES
      && |fed| == hashed + fill && hashed % BLOCK_BYTES == 0
      && blockBuffer[BLOCK_BYTES - fill..] == fed[hashed..]
      && Chained(hashState, fed[..hashed])
    }

    /** The bytes still to come when control is at s. */
    ghost function Left(s: State, job: Job): seq<nat>
      requires job.length <= 4 * |job.memory|
      reads this`prefixShift, this`prefixBytesLeft, this`messageAddr, this`messageBytesLeft
      reads this`zeroPadBytesLeft, this`lengthShift, this`lengthBytesLeft
    {
      match s
      case Prefix0 => Digits(256, prefixShift, prefixBytesLeft) + (Digits(256, job.prefix1, 32) + FromMessage(job))
      case Prefix1 => Digits(256, prefixShift, prefixBytesLeft) + FromMessage(job)
      case MsgReq | MsgWait | MsgLatch | MsgRead | Pad80 => FromMessage(job)
      case PadZero | Length => Ending(zeroPadBytesLeft, lengthShift, lengthBytesLeft)
      case _ => []
    }

    ghost function FromMessage(job: Job): seq<nat>
      requires job.length <= 4 * |job.memory|
      reads this`messageAddr, this`messageBytesLeft, this`zeroPadBytesLeft, this`lengthShift, this`lengthBytesLeft
    {
      (if messageAddr <= job.length && messageBytesLeft != 0 then MessageFrom(job, messageAddr) else []) + Padding()
    }

    ghost function Padding(): seq<nat>
      reads this`zeroPadBytesLeft, this`lengthShift, this`lengthBytesLeft
    {
      [0x80] + Ending(zeroPadBytesLeft, lengthShift, lengthBytesLeft)
    }

    lemma LeftInPrefix(job: Job)
      requires job.length <= 4 * |job.memory|
      ensures Left(Prefix0, job) == Digits(256, prefixShift, prefixBytesLeft) + (Digits(256, job.prefix1, 32) + FromMessage(job))
      ensures Left(Prefix1, job) == Digits(256, prefixShift, prefixBytesLeft) + FromMessage(job)
    {
      hide Digits, FromMessage;
    }

    lemma LeftAfterPrefix(job: Job)
      requires job.length <= 4 * |job.memory|
      ensures Left(MsgReq, job) == FromMessage(job) && Left(Pad80, job) == FromMessage(job)
    {
      hide Digits, FromMessage;
    }

    lemma LeftInMessage(s: State, job: Job)
      requires job.length <= 4 * |job.memory| && messageAddr <= job.length
      requires s == MsgReq || s == MsgWait || s == MsgLatch || s == MsgRead || s == Pad80
      ensures messageBytesLeft != 0 ==> Left(s, job) == MessageFrom(job, messageAddr) + Padding()
      ensures messageBytesLeft == 0 ==> Left(s, job) == Padding()
    {
      hide MessageFrom;
      assert [] + Padding() == Padding();
    }

    /** The counters and the message port agree with the state. */
    ghost predicate Coherent(s: State, job: Job)
      requires job.length <= 4 * |job.memory|
      reads this`prefixBytesLeft, this`messageAddr, this`messageBytesLeft, this`zeroPadBytesLeft, this`lengthBytesLeft
      reads this`msgRdEn, this`msgRdAddr, this`msgRdData, this`msgWordBuf, this`msgByteSel
    {
      match s
      case Prefix0 | Prefix1 =>
        1 <= prefixBytesLeft <= 32 && messageAddr == 0 && messageBytesLeft == job.length && !msgRdEn && EndingWhole()
      case MsgReq => InMessage(job) && messageAddr % 4 == 0 && (msgRdEn ==> msgRdAddr == messageAddr) && EndingWhole()
      case MsgWait =>
        InMessage(job) && messageAddr % 4 == 0 && msgRdEn && msgRdAddr == messageAddr && EndingWhole()
      case MsgLatch =>
        InMessage(job) && messageAddr % 4 == 0 && msgRdData == job.memory[messageAddr / 4] && !msgRdEn && EndingWhole()
      case MsgRead =>
        InMessage(job) && msgWordBuf == job.memory[messageAddr / 4] && msgByteSel == messageAddr % 4 && !msgRdEn && EndingWhole()
      case Pad80 => messageBytesLeft == 0 && !msgRdEn && EndingWhole()
      case PadZero => zeroPadBytesLeft > 0 && lengthBytesLeft == 8 && !msgRdEn
      case Length => zeroPadBytesLeft == 0 && 1 <= lengthBytesLeft <= 8 && !msgRdEn
      case Idle => !msgRdEn
      case Compressing => false
    }

    ghost predicate EndingWhole() reads this`lengthBytesLeft {
      lengthBytesLeft == 8
    }

    ghost predicate InMessage(job: Job)
      reads this`messageBytesLeft, this`messageAddr
    {
      messageBytesLeft > 0 && messageAddr + messageBytesLeft == job.length <= 4 * |job.memory|
    }

    /** Where control goes on once a full buffer has been hashed. */
    ghost function Control(): State reads this {
      if state == Compressing then resumeState else state
    }

    /** While busy, what was fed and what is still to come are together the padded input. */
    ghost predicate Running(job: Job) reads this {
      hide HashBlocks;
      && core.wMem.Length == Sha512.RING
      && Fits(job)
      && busy && state != State.Idle
      && Coherent(Control(), job)
      && (state == Compressing ==> !msgRdEn)
      && fed + Left(Control(), job) == Padded(job)
      && (state == Compressing || blockByteIndex < BLOCK_BYTES)
      && Buffered(if state == Compressing then BLOCK_BYTES else blockByteIndex)
      && BLOCK_BYTES * blocksRemaining == |Padded(job)| - hashed
    }

    // ----- one clock edge in each state -----

    /** The registers are set for `next`, and byte b is about to go out. */
    ghost predicate Sending(job: Job, b: nat, next: State) reads this {
      hide HashBlocks;
      && core.wMem.Length == Sha512.RING
      && Fits(job)
      && busy && state != State.Idle && state != Compressing
      && Coherent(next, job)
      && !msgRdEn
      && fed + [b] + Left(next, job) == Padded(job)
      && blockByteIndex < BLOCK_BYTES && Buffered(blockByteIndex)
      && BLOCK_BYTES * blocksRemaining == |Padded(job)| - hashed
    }

    method Shift(ghost fill: nat, b: nat)
      requires fill < BLOCK_BYTES && Buffered(fill)
      modifies this`blockBuffer, this`fed
      ensures fed == old(fed) + [b] && Buffered(fill + 1)
    {
      hide Chained;
      BufferShift(blockBuffer, fed, hashed, fill, b);
      blockBuffer := blockBuffer[1..] + [b];
      fed := fed + [b];
    }

    /** Shift one byte into the block buffer and go on to `next`, through the compressor when full. */
    method Emit(job: Job, b: nat, next: State)
      requires Sending(job, b, next)
      modifies this`blockBuffer, this`blockByteIndex, this`resumeState, this`state, this`fed
      ensures Running(job) && fed == old(fed) + [b] && hashed == old(hashed)
    {
      hide Buffered, Coherent, Left, Padded, Pow2;
      if next == State.Idle {
        IdleLeavesNothing(job);
        PaddedWhole(job);
        BufferedCounts(blockByteIndex);
        LastOfBlock(|fed|, hashed, blockByteIndex, |Padded(job)|);
      }
      Shift(blockByteIndex, b);
      if blockByteIndex == 127 {
        resumeState, state := next, Compressing;
      } else {
        blockByteIndex := blockByteIndex + 1;
        state := next;
      }
      CoherentState(next, job);
    }

    lemma BufferedCounts(fill: nat)
      requires Buffered(fill)
      ensures |fed| == hashed + fill && hashed % BLOCK_BYTES == 0
    {
      hide Chained;
    }

    lemma IdleLeavesNothing(job: Job)
      requires job.length <= 4 * |job.memory|
      ensures Left(State.Idle, job) == []
    {
    }

    lemma CoherentState(s: State, job: Job)
      requires job.length <= 4 * |job.memory| && Coherent(s, job)
      ensures s != Compressing
    {
    }

    method StepPrefix0(job: Job)
      requires Running(job) && state == Prefix0
      modifies this
      ensures Running(job) && |fed| == |old(fed)| + 1 && hashed == old(hashed)
    {
      hide Buffered, Digits, Padded, FromMessage, Pow2, Left;
      LeftInPrefix(job);
      DigitsCons(prefixShift, prefixBytesLeft);
      NoDigits(prefixShift / 256);
      var b := prefixShift % 256;
      var next := if prefixBytesLeft == 1 then Prefix1 else Prefix0;
      ghost var after := Digits(256, job.prefix1, 32) + FromMessage(job);
      ghost var rest := Digits(256, prefixShift / 256, prefixBytesLeft - 1) + after;
      assert Left(state, job) == [b] + rest;
      assert prefixBytesLeft == 1 ==> rest == after;
      if prefixBytesLeft == 1 {
        prefixShift, prefixBytesLeft := job.prefix1, 32;
      } else {
        prefixShift, prefixBytesLeft := prefixShift / 256, prefixBytesLeft - 1;
      }
      LeftInPrefix(job);
      MoveByte(fed, b, [b] + rest, rest, Padded(job));
      Emit(job, b, next);
    }

    method StepPrefix1(job: Job)
      requires Running(job) && state == Prefix1
      modifies this
      ensures Running(job) && |fed| == |old(fed)| + 1 && hashed == old(hashed)
    {
      hide Buffered, Digits, Padded, FromMessage, Pow2, Left, MessageFrom, Padding;
      LeftInPrefix(job);
      DigitsCons(prefixShift, prefixBytesLeft);
      NoDigits(prefixShift / 256);
      var b := prefixShift % 256;
      var next := if prefixBytesLeft != 1 then Prefix1 else if messageBytesLeft != 0 then MsgReq else Pad80;
      ghost var rest := Digits(256, prefixShift / 256, prefixBytesLeft - 1) + FromMessage(job);
      assert Left(state, job) == [b] + rest;
      assert prefixBytesLeft == 1 ==> rest == FromMessage(job);
      prefixShift := prefixShift / 256;
      if prefixBytesLeft != 1 {
        prefixBytesLeft := prefixBytesLeft - 1;
      }
      LeftInPrefix(job);
      LeftAfterPrefix(job);
      MoveByte(fed, b, [b] + rest, rest, Padded(job));
      Emit(job, b, next);
    }

    /** The message byte at messageAddr goes out; a new word is requested at each multiple of four. */
    method EmitMessageByte(job: Job, b: nat, select: nat, next: State)
      requires Running(job) && (state == MsgLatch || state == MsgRead) && b == MessageByte(job, messageAddr)
      requires next == (if messageBytesLeft == 1 then Pad80 else if messageAddr % 4 == 3 then MsgReq else MsgRead)
      requires msgWordBuf == job.memory[messageAddr / 4] && select == (messageAddr + 1) % 4 && !msgRdEn
      modifies this
      ensures Running(job) && |fed| == |old(fed)| + 1 && hashed == old(hashed)
    {
      hide Buffered, MessageFrom, Padding, Padded, MessageByte, Pow2, Left;
      MessageCons(job, messageAddr);
      AddressFits(messageAddr, job.length, Pow2(addrWidth));
      NextAddress(messageAddr);
      LeftInMessage(state, job);
      ghost var padding := Padding();
      ghost var rest := if messageBytesLeft == 1 then padding else MessageFrom(job, messageAddr + 1) + padding;
      if messageBytesLeft == 1 {
        NoMessage(job);
      }
      assert Left(state, job) == [b] + rest;
      messageBytesLeft, msgByteSel := messageBytesLeft - 1, select;
      messageAddr := (messageAddr + 1) % Pow2(addrWidth);
      LeftInMessage(next, job);
      MoveByte(fed, b, [b] + rest, rest, Padded(job));
      Emit(job, b, next);
    }

    method StepPad80(job: Job)
      requires Running(job) && state == Pad80
      modifies this
      ensures Running(job) && |fed| == |old(fed)| + 1 && hashed == old(hashed)
    {
      hide Buffered, Ending, Padded, MessageFrom, Pow2;
      var next := if zeroPadBytesLeft != 0 then PadZero else Length;
      MoveByte(fed, 0x80, Left(state, job), Left(next, job), Padded(job));
      Emit(job, 0x80, next);
    }

    method StepPadZero(job: Job)
      requires Running(job) && state == PadZero
      modifies this
      ensures Running(job) && |fed| == |old(fed)| + 1 && hashed == old(hashed)
    {
      hide Buffered, Padded, Ending, Pow2;
      var next := if zeroPadBytesLeft == 1 then Length else PadZero;
      ZerosCons(zeroPadBytesLeft, lengthShift, lengthBytesLeft);
      zeroPadBytesLeft := zeroPadBytesLeft - 1;
      MoveByte(fed, 0, old(Left(state, job)), Left(next, job), Padded(job));
      Emit(job, 0, next);
    }

    method StepLength(job: Job)
      requires Running(job) && state == Length
      modifies this
      ensures Running(job) && |fed| == |old(fed)| + 1 && hashed == old(hashed)
    {
      hide Buffered, Padded, Ending, ShiftLeft, Pow2;
      var b := lengthShift / 0x100_0000_0000_0000;
      var next := if lengthBytesLeft == 1 then State.Idle else Length;
      LengthCons(lengthShift, lengthBytesLeft);
      lengthShift := ShiftLeft(lengthShift);
      lengthBytesLeft := lengthBytesLeft - 1;
      MoveByte(fed, b, old(Left(state, job)), Left(next, job), Padded(job));
      Emit(job, b, next);
    }

    /** The message memory answers a request one cycle later; the request itself is a one-cycle pulse. */
    method MemoryCycle(job: Job) returns (ready: bool)
      requires msgRdEn ==> msgRdAddr == messageAddr && messageAddr / 4 < |job.memory|
      modifies this`msgRdEn, this`msgRdData
      ensures ready == old(msgRdEn) && !msgRdEn
      ensures msgRdData == if ready then job.memory[messageAddr / 4] else old(msgRdData)
    {
      ready := msgRdEn;
      if msgRdEn {
        msgRdData := job.memory[msgRdAddr / 4];
      }
      msgRdEn := false;
    }

    lemma PortAddress(job: Job)
      requires Running(job)
      ensures msgRdEn ==> msgRdAddr == messageAddr && messageAddr / 4 < |job.memory|
    {
      hide Padded, Left, Pow2, Buffered;
    }

    /** ST_MSG_REQ and ST_MSG_WAIT: hold the request until it is granted, then wait for the word. */
    method StepRequest(job: Job)
      requires Running(job) && (state == MsgReq || state == MsgWait)
      modifies this`state, this`msgRdEn, this`msgRdAddr, this`msgRdData
      ensures Running(job) && Rank() < old(Rank())
    {
      hide Padded, FromMessage, Pow2, Buffered;
      PortAddress(job);
      var ready := MemoryCycle(job);
      if state == MsgReq {
        msgRdEn, msgRdAddr := true, messageAddr;
        if ready {
          state := MsgWait;
        }
      } else {
        state := MsgLatch;
      }
    }

    /** ST_MSG_LATCH: keep the word and emit its lowest byte. */
    method StepLatch(job: Job)
      requires Running(job) && state == MsgLatch
      modifies this
      ensures Running(job) && |fed| == |old(fed)| + 1 && hashed == old(hashed)
    {
      hide Padded, Left, Pow2, Buffered, ByteOf;
      PortAddress(job);
      var _ := MemoryCycle(job);
      NextSelect(messageAddr);
      msgWordBuf := msgRdData;
      var b := ByteOf(msgRdData, messageAddr % 4);
      var next := if messageBytesLeft == 1 then Pad80 else MsgRead;
      EmitMessageByte(job, b, (messageAddr % 4 + 1) % 4, next);
    }

    /** ST_MSG_READ: the next byte of the kept word. */
    method StepRead(job: Job)
      requires Running(job) && state == MsgRead
      modifies this
      ensures Running(job) && |fed| == |old(fed)| + 1 && hashed == old(hashed)
    {
      hide Padded, Left, Pow2, Buffered, ByteOf;
      NextSelect(messageAddr);
      var b := ByteOf(msgWordBuf, msgByteSel);
      var next := if messageBytesLeft == 1 then Pad80 else if msgByteSel == 3 then MsgReq else MsgRead;
      EmitMessageByte(job, b, (msgByteSel + 1) % 4, next);
    }

    /** ST_COMPRESS: hash the full buffer; after the last block the chaining value is the digest. */
    method StepCompress(job: Job)
      requires Running(job) && state == Compressing
      modifies this, core, core.wMem
      ensures fed == old(fed)
      ensures if busy then Running(job) && state != Compressing else Finished(job)
    {
      hide Padded, Left, Pow2, Coherent, HashBlocks, Buffered, Chained, Hash, Input;
      BlocksAhead(job);
      CoherentState(resumeState, job);
      HashBuffer();
      if blocksRemaining == 1 {
        WholeInput(fed, Padded(job));
        DigestOf(job);
        digestOut, busy, done, error, state := hashState, false, true, false, State.Idle;
      } else {
        blocksRemaining := blocksRemaining - 1;
        state := resumeState;
      }
    }

    /** The compression core takes the buffer, which becomes empty. */
    method HashBuffer()
      requires core.wMem.Length == Sha512.RING && Buffered(BLOCK_BYTES)
      modifies this`hashState, this`hashed, this`blockBuffer, this`blockByteIndex, core, core.wMem
      ensures Buffered(0) && blockByteIndex == 0 && hashed == |fed| && Chained(hashState, fed)
    {
      hide HashBlocks, Sha512.Compress, BlockOf, InitialValue;
      assert blockBuffer == fed[hashed..];
      var h := core.Run(hashState, BlockOf(blockBuffer));
      HashOneMore(fed, hashed);
      hashState, hashed := h, hashed + BLOCK_BYTES;
      assert fed[..hashed] == fed;
      blockBuffer, blockByteIndex := Zeros(BLOCK_BYTES), 0;
    }

    lemma DigestOf(job: Job)
      requires job.length <= 4 * |job.memory| && Chained(hashState, Padded(job))
      ensures hashState == Hash(Input(job))
    {
      hide HashBlocks, Pad, Input;
    }

    /** A full buffer is the last one exactly when one block remains, and only then nothing follows. */
    lemma BlocksAhead(job: Job)
      requires Running(job) && state == Compressing
      ensures |fed| == hashed + BLOCK_BYTES && |Padded(job)| == hashed + BLOCK_BYTES * blocksRemaining
      ensures blocksRemaining >= 1 && |fed| + |Left(resumeState, job)| == |Padded(job)|
      ensures blocksRemaining > 1 ==> resumeState != State.Idle
      ensures fed == Padded(job)[..|fed|]
    {
      hide Padded, Pow2, Chained, Coherent;
      if resumeState == State.Idle {
        IdleLeavesNothing(job);
      }
      hide Left;
      assert fed == (fed + Left(resumeState, job))[..|fed|];
    }

    /** The digest of the whole input is out. */
    ghost predicate Finished(job: Job)
      reads this
    {
      Idle() && done && !error && job.length <= 4 * |job.memory| && digestOut == Hash(Input(job))
    }

    /** Cycles a state may spend before the next byte moves. */
    ghost function Rank(): nat reads this {
      if state == Compressing then 5
      else if state == MsgReq then (if msgRdEn then 3 else 4)
      else if state == MsgWait then 2
      else 0
    }

    /** One clock edge while busy. */
    method Clock(job: Job)
      requires Running(job)
      modifies this, core, core.wMem
      ensures if busy then Running(job) else Finished(job)
      ensures |fed| == |old(fed)| + 1 || (|fed| == |old(fed)| && (!busy || Rank() < old(Rank())))
    {
      hide Padded, Left, Pow2, Buffered, Input, Running, Finished;
      RunningNotIdle(job);
      ghost var was := state;
      match state {
        case Prefix0 => StepPrefix0(job);
        case Prefix1 => StepPrefix1(job);
        case MsgReq | MsgWait => StepRequest(job);
        case MsgLatch => StepLatch(job);
        case MsgRead => StepRead(job);
        case Pad80 => StepPad80(job);
        case PadZero => StepPadZero(job);
        case Length => StepLength(job);
        case Compressing => StepCompress(job);
      }
      if busy || was != Compressing {
        RunningNotIdle(job);
      }
    }

    lemma RunningNotIdle(job: Job)
      requires Running(job)
      ensures busy && state != State.Idle
    {
      hide Padded, Left, Pow2, Buffered, Coherent;
    }

    /** The combinational total: whole blocks, and one or two more for what follows the message. */
    static method PaddedTotalCalc(length: nat) returns (total: nat, blocks: nat)
      ensures total == PaddedLength(64 + length) == 128 * blocks
    {
      var rawTotal := 64 + length;
      total := rawTotal / 128 * 128;
      if rawTotal % 128 <= 111 {
        total := total + 128;
      } else {
        total := total + 256;
      }
      blocks := total / 128;
    }

    /** The start cycle for a message that fits. */
    method Load(job: Job)
      requires Idle() && Fits(job) && job.length < 0x1_0000
      modifies this
      ensures Running(job) && fed == []
    {
      hide Padded, Pow2, Input, HashBlocks, Left, Buffered, Coherent, InitialValue, Loaded, Running;
      blocksRemaining := LoadCounters(job);
      LoadBuffer();
      busy, error, done, state := true, false, false, Prefix0;
      Started(job);
    }

    lemma Started(job: Job)
      requires Fits(job) && job.length < 0x1_0000 && Loaded(job) && core.wMem.Length == Sha512.RING
      requires busy && state == Prefix0 && !msgRdEn && fed == [] && hashed == 0 && blockByteIndex == 0 && Buffered(0)
      requires BLOCK_BYTES * blocksRemaining == |Padded(job)|
      ensures Running(job)
    {
      hide Padded, Pow2, Input, HashBlocks, Left, Buffered, Coherent, InitialValue, Loaded;
      WholeLeft(job);
    }

    ghost predicate Loaded(job: Job)
      reads this`prefixShift, this`prefixBytesLeft, this`messageBytesLeft, this`messageAddr, this`zeroPadBytesLeft
      reads this`lengthShift, this`lengthBytesLeft
    {
      && prefixShift == job.prefix0 && prefixBytesLeft == 32 && messageBytesLeft == job.length && messageAddr == 0
      && zeroPadBytesLeft == ZeroBytes(64 + job.length) + 8
      && lengthShift == (64 + job.length) * 8 && lengthBytesLeft == 8
    }

    method LoadCounters(job: Job) returns (blocks: nat)
      requires job.length <= 4 * |job.memory|
      modifies this`prefixShift, this`prefixBytesLeft, this`messageBytesLeft, this`messageAddr, this`zeroPadBytesLeft
      modifies this`lengthShift, this`lengthBytesLeft, this`msgWordBuf, this`msgByteSel
      ensures Loaded(job) && 128 * blocks == |Padded(job)|
    {
      hide Padded, ZeroBytes, PaddedLength;
      PaddedTotal(job);
      var paddedTotal;
      paddedTotal, blocks := PaddedTotalCalc(job.length);
      prefixShift, prefixBytesLeft := job.prefix0, 32;
      messageBytesLeft, messageAddr := job.length, 0;
      zeroPadBytesLeft := paddedTotal - (64 + job.length) - 9;
      lengthShift, lengthBytesLeft := (64 + job.length) * 8, 8;
      msgWordBuf, msgByteSel := 0, 0;
    }

    method LoadBuffer()
      modifies this`blockByteIndex, this`blockBuffer, this`hashState, this`fed, this`hashed
      ensures fed == [] && hashed == 0 && blockByteIndex == 0 && Buffered(0)
    {
      hide HashBlocks, InitialValue, Chained, Zeros;
      fed, hashed := [], 0;
      blockByteIndex, blockBuffer, hashState := 0, Zeros(BLOCK_BYTES), InitialValue();
      NothingHashed();
    }

    lemma NothingHashed()
      requires fed == [] && hashed == 0 && blockBuffer == Zeros(BLOCK_BYTES) && hashState == InitialValue()
      ensures Buffered(0)
    {
      EmptyHash();
      hide Chained, InitialValue, Zeros;
    }

    lemma WholeLeft(job: Job)
      requires job.length <= 4 * |job.memory| && job.length < 0x1_0000 && Loaded(job)
      ensures Left(Prefix0, job) == Padded(job) && (!msgRdEn ==> Coherent(Prefix0, job))
    {
      hide Digits, MessageFrom, Ending, Left, BigEndian, ZeroBytes, Zeros;
      LeftInPrefix(job);
      if job.length == 0 {
        NoMessage(job);
      }
      EndingIsPadding(64 + job.length);
      var zeros, length := Zeros(ZeroBytes(64 + job.length)), BigEndian(8 * (64 + job.length), 16);
      Reassociate(Digits(256, job.prefix0, 32), Digits(256, job.prefix1, 32), MessageFrom(job, 0), zeros, length);
    }

    /** A hash from start to done: an error exactly when the message is longer than its memory. */
    method Run(job: Job) returns (ok: bool)
      requires Idle() && job.length < 0x1_0000 && Pow2(addrWidth) <= 4 * |job.memory|
      modifies this, core, core.wMem
      ensures ok <==> job.length <= Pow2(addrWidth)
      ensures Idle() && done && error == !ok
      ensures ok ==> digestOut == Hash(Input(job))
    {
      hide Padded, Pow2, Input, Hash, Running, Rank;
      if job.length > Pow2(addrWidth) {
        done, error, digestOut := true, true, Sha512.Words(0, 0, 0, 0, 0, 0, 0, 0);
        return false;
      }
      Load(job);
      RunningNotIdle(job);
      while busy
        invariant if busy then Running(job) else Finished(job)
        decreases busy, |Padded(job)| - |fed|, Rank()
      {
        FedWithin(job);
        Clock(job);
        if busy {
          FedWithin(job);
        }
      }
      ok := true;
    }

    lemma FedWithin(job: Job)
      requires Running(job)
      ensures |fed| <= |Padded(job)|
    {
      hide Padded, Left, Pow2, Buffered;
    }
  }

  // ----- moving one byte from what is left to what was fed -----

  lemma MoveByte(fed: seq<nat>, b: nat, left: seq<nat>, rest: seq<nat>, padded: seq<nat>)
    requires fed + left == padded && left == [b] + rest
    ensures fed + [b] + rest == padded
  {
  }

  lemma BufferShift(buffer: seq<nat>, fed: seq<nat>, hashed: nat, fill: nat, b: nat)
    requires |buffer| == BLOCK_BYTES && fill < BLOCK_BYTES && |fed| == hashed + fill
    requires buffer[BLOCK_BYTES - fill..] == fed[hashed..]
    ensures (buffer[1..] + [b])[BLOCK_BYTES - (fill + 1)..] == (fed + [b])[hashed..]
    ensures (fed + [b])[..hashed] == fed[..hashed]
  {
  }

  lemma DigitsCons(n: nat, count: nat)
    requires count > 0
    ensures Digits(256, n, count) == [n % 256] + Digits(256, n / 256, count - 1)
  {
  }

  lemma NoDigits(n: nat)
    ensures Digits(256, n, 0) == []
  {
  }

  lemma MessageCons(job: Job, from: nat)
    requires from < job.length <= 4 * |job.memory|
    ensures MessageFrom(job, from) == [MessageByte(job, from)] + MessageFrom(job, from + 1)
  {
    hide MessageByte;
  }

  lemma NoMessage(job: Job)
    requires job.length <= 4 * |job.memory|
    ensures MessageFrom(job, job.length) == []
  {
  }

  lemma ZerosCons(zeros: nat, shift: nat, n: nat)
    requires zeros > 0
    ensures Ending(zeros, shift, n) == [0] + Ending(zeros - 1, shift, n)
  {
    hide TopBytes;
    assert Zeros(zeros) == [0] + Zeros(zeros - 1);
  }

  lemma LengthCons(shift: nat, n: nat)
    requires n > 0
    ensures Ending(0, shift, n) == [shift / 0x100_0000_0000_0000] + Ending(0, ShiftLeft(shift), n - 1)
    ensures n == 1 ==> Ending(0, ShiftLeft(shift), n - 1) == []
  {
    assert Zeros(0) == [];
  }

  lemma PaddedWhole(job: Job)
    requires job.length <= 4 * |job.memory|
    ensures |Padded(job)| % BLOCK_BYTES == 0
  {
    PadFillsBlocks(Input(job), 0);
  }

  lemma LastOfBlock(fed: nat, hashed: nat, fill: nat, total: nat)
    requires fed + 1 == total && fed == hashed + fill && fill < 128 && hashed % 128 == 0 && total % 128 == 0
    ensures fill == 127
  {
  }

  lemma AddressFits(addr: nat, length: nat, size: nat)
    requires addr < length <= size
    ensures (addr + 1) % size == if addr + 1 == size then 0 else addr + 1
  {
  }

  lemma NextSelect(addr: nat)
    ensures (addr % 4 + 1) % 4 == (addr + 1) % 4
  {
  }

  lemma NextAddress(addr: nat)
    ensures addr % 4 == 3 ==> (addr + 1) % 4 == 0
    ensures addr % 4 != 3 ==> (addr + 1) / 4 == addr / 4
  {
  }

  lemma HashOneMore(fed: seq<nat>, hashed: nat)
    requires |fed| == hashed + BLOCK_BYTES
    ensures HashBlocks(InitialValue(), fed) ==
      Sha512.Compress(HashBlocks(InitialValue(), fed[..hashed]), BlockOf(fed[hashed..]))
  {
    hide Sha512.Compress, BlockOf, InitialValue;
  }

  lemma EmptyHash()
    ensures Chained(InitialValue(), [])
  {
    hide Sha512.Compress, BlockOf, InitialValue;
  }

  lemma WholeInput(fed: seq<nat>, padded: seq<nat>)
    requires |fed| == |padded| && fed == padded[..|fed|]
    ensures fed == padded
  {
  }

  function PaddedLength(raw: nat): nat {
    raw / 128 * 128 + (if raw % 128 <= 111 then 128 else 256)
  }

  /** The total computed at start is the length of the padded input. */
  lemma PaddedTotal(job: Job)
    requires job.length <= 4 * |job.memory|
    ensures PaddedLength(64 + job.length) == |Padded(job)| == 64 + job.length + 9 + (ZeroBytes(64 + job.length) + 8)
  {
    hide Input, BigEndian;
    ZeroBytesCases(64 + job.length);
    hide ZeroBytes;
  }

  /** The engine's zero bytes and 8-byte length are the zero bytes and 16-byte length of the standard. */
  lemma EndingIsPadding(length: nat)
    requires length < 0x1_0040
    ensures Ending(ZeroBytes(length) + 8, length * 8, 8) == Zeros(ZeroBytes(length)) + BigEndian(8 * length, 16)
  {
    EightBytes();
    hide Pow, TopBytes, BigEndian, ZeroBytes, Zeros;
    LengthField(8 * length);
    ZerosJoin(ZeroBytes(length), 8);
  }

  lemma LengthField(v: nat)
    requires v < Pow(256, 8)
    ensures TopBytes(v, 8) == BigEndian(v, 8) && BigEndian(v, 16) == Zeros(8) + BigEndian(v, 8)
  {
    assert Pow(256, 0) == 1;
    hide Pow, TopBytes, BigEndian, Zeros;
    TopBytesAreBigEndian(v, 8);
    BigEndianJoin(0, 8, v, 8);
    BigEndianZero(8);
  }

  lemma Reassociate(a: seq<nat>, b: seq<nat>, m: seq<nat>, zeros: seq<nat>, length: seq<nat>)
    ensures a + (b + (m + ([0x80] + (zeros + length)))) == a + (b + m) + [0x80] + zeros + length
  {
  }

  lemma ZerosJoin(m: nat, n: nat)
    ensures Zeros(m + n) == Zeros(m) + Zeros(n)
  {
  }

  lemma {:induction false} BigEndianZero(n: nat)
    ensures BigEndian(0, n) == Zeros(n)
  {
    if n > 0 {
      BigEndianZero(n - 1);
    }
  }
}
