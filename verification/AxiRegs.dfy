/**
 * The AXI-Lite register block (sigv_axi_regs.v): write and read handshakes, command pulses, the
 * configuration lock, and the masking of a stale completion.
 */
module AxiRegs {
  import opened BatchSpec
  import Bits

  const ADDR_CONTROL := 0x00
  const ADDR_STATUS := 0x04
  const ADDR_MESSAGE_LEN := 0x08
  const ADDR_JOB_COUNT := 0x0C
  const ADDR_RESULT_MASK_WORD0 := 0x10
  const ADDR_ERROR_CODE := 0x30
  const ADDR_LED_CONTROL := 0x34
  const ADDR_VERIFY_CFG := 0x38
  const ADDR_DISPATCH_STATUS := 0x3C
  const ADDR_JOBS_STARTED := 0x40
  const ADDR_JOBS_COMPLETED := 0x44
  const ADDR_JOBS_DROPPED := 0x48
  const ADDR_JOB_TIMEOUT_CYCLES := 0x5C
  const ADDR_IRQ_CTRL_STATUS := 0x60
  const ADDR_BATCH_ID := 0x64
  const ADDR_SNAPSHOT_BATCH_ID := 0x68
  const ADDR_SNAPSHOT_ACCEPTED := 0x6C
  const ADDR_SNAPSHOT_COMPLETED := 0x70
  const ADDR_SNAPSHOT_DROPPED := 0x74
  const ADDR_SNAPSHOT_ERR_STATUS := 0x78
  const ADDR_HW_MAGIC := 0x7C
  const ADDR_HW_BUILD := 0x80
  const HW_MAGIC := 0x53494756
  const TWO_16: nat := 0x1_0000

  /** Byte write strobes, lane 0 first. */
  type Strobe = s: seq<bool> | |s| == 4 witness [false, false, false, false]

  /** What the bus master drives in one cycle. */
  datatype Bus = Bus(awvalid: bool, awaddr: nat, wvalid: bool, wdata: nat, wstrb: Strobe, bready: bool,
                     arvalid: bool, araddr: nat, rready: bool)

  datatype Settings = Settings(messageLength: nat, requestedJobCount: nat, verifyMode: nat, dispatchLimit: nat,
                               jobTimeoutCycles: nat)

  datatype WriteChannel = WriteChannel(awSeen: bool, wSeen: bool, awaddr: nat, wdata: nat, wstrb: Strobe, bvalid: bool)

  datatype ReadChannel = ReadChannel(rvalid: bool, rdata: nat)

  /** The one-cycle outputs of a command write. */
  datatype Pulses = Pulses(start: bool, softReset: bool, launchPending: bool, statusClearHold: bool)

  datatype Irq = Irq(enable: bool, pending: bool, completionSeen: bool)

  datatype Axi = Axi(w: WriteChannel, rd: ReadChannel, pulses: Pulses, settings: Settings, ledControl: nat,
                     irq: Irq, configWriteIgnored: bool)

  function NoPulses(): Pulses {
    Pulses(false, false, false, false)
  }

  function Reset(): Axi {
    Axi(WriteChannel(false, false, 0, 0, [false, false, false, false], false), ReadChannel(false, 0), NoPulses(),
      Settings(0, 0, 0, 0, 0), 0, Irq(false, false, false), false)
  }

  // ----- words and strobes -----

  /** Byte lanes of the written word where the strobe is set, of the current word elsewhere. */
  function ApplyStrobe(current: nat, write: nat, strobe: Strobe): nat
  {
    var c, w := Bits.Digits(256, current, 4), Bits.Digits(256, write, 4);
    Bits.Value(256, seq<nat>(4, i requires 0 <= i < 4 => if strobe[i] then w[i] else c[i]))
  }

  function AllLanes(): Strobe {
    [true, true, true, true]
  }

  /** Full-word writes store the word; writes without strobes keep the register. */
  lemma FullStrobe(current: nat, write: nat, strobe: Strobe)
    ensures write < TWO_32 && (forall i :: 0 <= i < 4 ==> strobe[i]) ==> ApplyStrobe(current, write, strobe) == write
    ensures current < TWO_32 && (forall i :: 0 <= i < 4 ==> !strobe[i]) ==> ApplyStrobe(current, write, strobe) == current
  {
    FourBytes();
    var c, w := Bits.Digits(256, current, 4), Bits.Digits(256, write, 4);
    if write < TWO_32 {
      Bits.ValueOfDigits(256, write, 4);
    }
    if current < TWO_32 {
      Bits.ValueOfDigits(256, current, 4);
    }
    var mixed := seq<nat>(4, i requires 0 <= i < 4 => if strobe[i] then w[i] else c[i]);
    hide Bits.Digits, Bits.Value, Bits.Pow;
    if forall i :: 0 <= i < 4 ==> strobe[i] {
      assert mixed == w;
    }
    if forall i :: 0 <= i < 4 ==> !strobe[i] {
      assert mixed == c;
    }
  }

  /** Byte lane i of the result comes from the written word if its strobe is set, from the register if not. */
  lemma StrobedLane(current: nat, write: nat, strobe: Strobe, i: nat)
    requires i < 4
    ensures Bits.Digits(256, ApplyStrobe(current, write, strobe), 4)[i] ==
      (if strobe[i] then Bits.Digits(256, write, 4) else Bits.Digits(256, current, 4))[i]
  {
    var c, w := Bits.Digits(256, current, 4), Bits.Digits(256, write, 4);
    var mixed := seq<nat>(4, k requires 0 <= k < 4 => if strobe[k] then w[k] else c[k]);
    hide Bits.Digits, Bits.Value;
    Bits.DigitsOfValue(256, mixed);
  }

  lemma FourBytes()
    ensures Bits.Pow(256, 4) == TWO_32
  {
  }

  function Bit(b: bool, weight: nat): nat {
    if b then weight else 0
  }

  // ----- reads -----

  function StatusWord(a: Axi, s: Regs): nat {
    var held := a.pulses.statusClearHold;
    Bit(s.busy || a.pulses.launchPending, 1) + Bit(s.done && !held, 2) + Bit(s.error && !held, 4)
    + Bit(s.resultValid && !held, 8) + Bit(a.irq.pending, 16) + Bit(a.configWriteIgnored, 32) + Bit(s.busy, 64)
  }

  /** Word k of the result mask. */
  function MaskWord(mask: seq<bool>, k: nat): nat
    requires |mask| == MASK_BITS && k < 8
  {
    Bits.Value(2, seq<nat>(32, i requires 0 <= i < 32 => if mask[32 * k + i] then 1 else 0))
  }

  /** The read multiplexer; the performance counters are not part of this model and read as 0. */
  function ReadWord(a: Axi, s: Regs, addr: nat): nat {
    var aligned := addr / 4 * 4;
    if aligned == ADDR_STATUS then StatusWord(a, s)
    else if aligned == ADDR_MESSAGE_LEN then a.settings.messageLength
    else if aligned == ADDR_JOB_COUNT then a.settings.requestedJobCount
    else if ADDR_RESULT_MASK_WORD0 <= aligned < ADDR_ERROR_CODE then
      (if |s.resultMask| == MASK_BITS then MaskWord(s.resultMask, (aligned - ADDR_RESULT_MASK_WORD0) / 4) else 0)
    else if aligned == ADDR_ERROR_CODE then s.errorCode
    else if aligned == ADDR_LED_CONTROL then a.ledControl
    else if aligned == ADDR_VERIFY_CFG then 256 * a.settings.dispatchLimit + a.settings.verifyMode
    else if aligned == ADDR_DISPATCH_STATUS then
      Bit(s.busy || a.pulses.launchPending, TWO_16) + 256 * s.currentJobIndex + s.accepted
    else if aligned == ADDR_JOBS_STARTED then s.jobsStarted
    else if aligned == ADDR_JOBS_COMPLETED then s.jobsCompleted
    else if aligned == ADDR_JOBS_DROPPED then s.jobsDropped
    else if aligned == ADDR_JOB_TIMEOUT_CYCLES then a.settings.jobTimeoutCycles
    else if aligned == ADDR_IRQ_CTRL_STATUS then Bit(a.irq.enable, 1) + Bit(a.irq.pending, 2)
    else if aligned == ADDR_BATCH_ID then s.batchId
    else if aligned == ADDR_SNAPSHOT_BATCH_ID then s.snapshot.batchId
    else if aligned == ADDR_SNAPSHOT_ACCEPTED then s.snapshot.accepted
    else if aligned == ADDR_SNAPSHOT_COMPLETED then s.snapshot.completed
    else if aligned == ADDR_SNAPSHOT_DROPPED then s.snapshot.dropped
    else if aligned == ADDR_SNAPSHOT_ERR_STATUS then
      s.snapshot.errorCode + Bit(s.snapshot.error, 256) + Bit(s.snapshot.resultValid, 512)
    else if aligned == ADDR_HW_MAGIC then HW_MAGIC
    else if aligned == ADDR_HW_BUILD then 256
    else 0
  }

  // ----- writes -----

  datatype Write = Write(addr: nat, data: nat, strobe: Strobe)

  predicate AwHandshake(c: WriteChannel, b: Bus) {
    !c.awSeen && !c.bvalid && b.awvalid
  }

  predicate WHandshake(c: WriteChannel, b: Bus) {
    !c.wSeen && !c.bvalid && b.wvalid
  }

  /** A write commits in the first cycle that has both its address and its data, never while a response waits. */
  predicate Commits(c: WriteChannel, b: Bus) {
    !c.bvalid && (c.awSeen || AwHandshake(c, b)) && (c.wSeen || WHandshake(c, b))
  }

  function Committed(c: WriteChannel, b: Bus): Write {
    Write(if c.awSeen then c.awaddr else b.awaddr, if c.wSeen then c.wdata else b.wdata, if c.wSeen then c.wstrb else b.wstrb)
  }

  /** The write channel: collect address and data, respond, and drop an accepted response. */
  function Collect(c: WriteChannel, b: Bus): WriteChannel {
    if Commits(c, b) then c.(awSeen := false, wSeen := false, bvalid := true)
    else
      var d := c.(bvalid := c.bvalid && !b.bready);
      var e := if AwHandshake(c, b) then d.(awSeen := true, awaddr := b.awaddr) else d;
      if WHandshake(c, b) then e.(wSeen := true, wdata := b.wdata, wstrb := b.wstrb) else e
  }

  /** The word a command write delivers. */
  function Command(w: Write): nat
  {
    ApplyStrobe(0, w.data, w.strobe)
  }

  /** Bits 0 and 1 of the control word. */
  predicate IsCommand(w: Write) {
    w.addr / 4 * 4 == ADDR_CONTROL && Command(w) % 4 != 0
  }

  function Configure(c: Settings, aligned: nat, w: Write): Settings
  {
    if aligned == ADDR_MESSAGE_LEN then c.(messageLength := ApplyStrobe(c.messageLength, w.data, w.strobe) % TWO_16)
    else if aligned == ADDR_JOB_COUNT then c.(requestedJobCount := ApplyStrobe(c.requestedJobCount, w.data, w.strobe))
    else if aligned == ADDR_VERIFY_CFG then
      var word := ApplyStrobe(256 * c.dispatchLimit + c.verifyMode, w.data, w.strobe);
      c.(dispatchLimit := word / 256 % 256, verifyMode := word % 4)
    else if aligned == ADDR_JOB_TIMEOUT_CYCLES then
      c.(jobTimeoutCycles := ApplyStrobe(c.jobTimeoutCycles, w.data, w.strobe))
    else c
  }

  predicate IsSetting(aligned: nat) {
    aligned == ADDR_MESSAGE_LEN || aligned == ADDR_JOB_COUNT || aligned == ADDR_VERIFY_CFG || aligned == ADDR_JOB_TIMEOUT_CYCLES
  }

  function CommandPulses(word: nat): Pulses {
    Pulses(word % 2 == 1, word / 2 % 2 == 1, word % 2 == 1, word % 4 != 0)
  }

  function Store(a: Axi, w: Write, busy: bool): Axi {
    var aligned := w.addr / 4 * 4;
    if aligned == ADDR_CONTROL then
      var t := a.(pulses := CommandPulses(Command(w)));
      if Command(w) % 4 != 0 then
        t.(irq := a.irq.(pending := false, completionSeen := false), configWriteIgnored := false)
      else t
    else if IsSetting(aligned) then
      (if busy then a.(configWriteIgnored := true) else a.(settings := Configure(a.settings, aligned, w)))
    else if aligned == ADDR_LED_CONTROL then a.(ledControl := ApplyStrobe(a.ledControl, w.data, w.strobe))
    else if aligned == ADDR_IRQ_CTRL_STATUS && w.strobe[0] then
      a.(irq := a.irq.(enable := w.data % 2 == 1, pending := a.irq.pending && w.data / 2 % 2 == 0))
    else a
  }

  // ----- one cycle -----

  /** The read channel: a request is answered at once, an accepted answer retires. */
  function Answer(a: Axi, b: Bus, s: Regs): ReadChannel {
    if !a.rd.rvalid && b.arvalid then ReadChannel(true, ReadWord(a, s, b.araddr))
    else if a.rd.rvalid && b.rready then a.rd.(rvalid := false)
    else a.rd
  }

  /** A completion raises the pending flag once. */
  function Notice(q: Irq, level: bool): Irq {
    q.(pending := q.pending || (level && !q.completionSeen), completionSeen := level)
  }

  function Clocked(a: Axi, b: Bus, s: Regs): Axi {
    var t := a.(rd := Answer(a, b, s), pulses := NoPulses(), irq := Notice(a.irq, s.done || s.error), w := Collect(a.w, b));
    if Commits(a.w, b) then Store(t, Committed(a.w, b), s.busy) else t
  }

  // ----- what a cycle can change -----

  lemma StoreFacts(a: Axi, w: Write, busy: bool)
    requires a.pulses == NoPulses()
    ensures var t := Store(a, w, busy);
      && t.w == a.w && t.rd == a.rd
      && (w.addr / 4 * 4 == ADDR_CONTROL ==> t.pulses == CommandPulses(Command(w)))
      && (w.addr / 4 * 4 != ADDR_CONTROL ==> t.pulses == NoPulses())
      && (busy || !IsSetting(w.addr / 4 * 4) ==> t.settings == a.settings)
      && (!busy && IsSetting(w.addr / 4 * 4) ==> t.settings == Configure(a.settings, w.addr / 4 * 4, w))
  {
    hide ApplyStrobe, Configure, Command, CommandPulses;
  }

  lemma LowBits(word: nat)
    ensures word % 2 == 1 || word / 2 % 2 == 1 <==> word % 4 != 0
    ensures word % 4 == 3 <==> word % 2 == 1 && word / 2 % 2 == 1
  {
  }

  /** Pulses come only from command writes, with the response; settings change only in a write while idle. */
  lemma ClockedFacts(a: Axi, b: Bus, s: Regs)
    ensures var t, w := Clocked(a, b, s), Committed(a.w, b);
      && t.w == Collect(a.w, b) && t.rd == Answer(a, b, s)
      && (t.pulses != NoPulses() ==> t.w.bvalid)
      && t.pulses == (if Commits(a.w, b) && w.addr / 4 * 4 == ADDR_CONTROL then CommandPulses(Command(w)) else NoPulses())
      && (!Commits(a.w, b) || s.busy || !IsSetting(w.addr / 4 * 4) ==> t.settings == a.settings)
      && (Commits(a.w, b) && !s.busy && IsSetting(w.addr / 4 * 4) ==>
        t.settings == Configure(a.settings, w.addr / 4 * 4, w))
  {
    hide Answer, Notice, Store, Command, Committed, CommandPulses, Configure, IsSetting;
    StoreFacts(a.(rd := Answer(a, b, s), pulses := NoPulses(), irq := Notice(a.irq, s.done || s.error), w := Collect(a.w, b)),
      Committed(a.w, b), s.busy);
  }

  class Registers {
    var r: Axi

    constructor ()
      ensures r == Reset()
    {
      r := Reset();
    }

    /** One clock edge beside a core in state s. */
    method Clock(b: Bus, s: Regs)
      modifies this
      ensures r == Clocked(old(r), b, s)
    {
      hide ApplyStrobe, Store, Committed, ReadWord;
      var was := r;
      r := r.(pulses := NoPulses(), irq := Notice(r.irq, s.done || s.error));
      if was.rd.rvalid && b.rready {
        r := r.(rd := was.rd.(rvalid := false));
      }
      if !was.rd.rvalid && b.arvalid {
        r := r.(rd := ReadChannel(true, ReadWord(was, s, b.araddr)));
      }
      CollectWrite(b);
      if Commits(was.w, b) {
        StoreWord(Committed(was.w, b), s.busy);
      }
    }

    method CollectWrite(b: Bus)
      modifies this
      ensures r == old(r).(w := Collect(old(r).w, b))
    {
      var was := r.w;
      var now := was.(bvalid := was.bvalid && !b.bready);
      if Commits(was, b) {
        now := now.(awSeen := false, wSeen := false, bvalid := true);
      } else {
        if AwHandshake(was, b) {
          now := now.(awSeen := true, awaddr := b.awaddr);
        }
        if WHandshake(was, b) {
          now := now.(wSeen := true, wdata := b.wdata, wstrb := b.wstrb);
        }
      }
      r := r.(w := now);
    }

    /** The case statement over the write address. */
    method StoreWord(w: Write, busy: bool)
      modifies this
      ensures r == Store(old(r), w, busy)
    {
      hide ApplyStrobe, Configure;
      var aligned := w.addr / 4 * 4;
      if aligned == ADDR_CONTROL {
        var word := Command(w);
        r := r.(pulses := Pulses(word % 2 == 1, word / 2 % 2 == 1, word % 2 == 1, word % 4 != 0));
        if word % 4 != 0 {
          r := r.(irq := r.irq.(pending := false, completionSeen := false), configWriteIgnored := false);
        }
      } else if IsSetting(aligned) {
        if busy {
          r := r.(configWriteIgnored := true);
        } else {
          r := r.(settings := Configure(r.settings, aligned, w));
        }
      } else if aligned == ADDR_LED_CONTROL {
        r := r.(ledControl := ApplyStrobe(r.ledControl, w.data, w.strobe));
      } else if aligned == ADDR_IRQ_CTRL_STATUS {
        if w.strobe[0] {
          r := r.(irq := r.irq.(enable := w.data % 2 == 1));
          if w.data / 2 % 2 == 1 {
            r := r.(irq := r.irq.(pending := false));
          }
        }
      }
    }
  }
}
