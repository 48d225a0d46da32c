/**
 * One clock edge of the batch core (sigv_kv260_core.v) as a function of its registers: launching,
 * loading records, handing them to engine slots, the watchdog and finalising.
 */
module BatchSpec {

  const JOB_WORDS: nat := 24
  const LANES: nat := 8
  const MASK_BITS: nat := 256
  const MAX_JOB_COUNT: nat := 255
  const TWO_8: nat := 0x100
  const TWO_32: nat := 0x1_0000_0000

  const ERR_NONE: nat := 0
  const ERR_MESSAGE_LEN: nat := 1
  const ERR_JOB_COUNT: nat := 2
  const ERR_JOB_RANGE: nat := 3
  const ERR_JOB_TIMEOUT: nat := 4

  /** Three 256-bit registers in 32-bit lanes, least significant first. */
  datatype Record = Record(pubkey: seq<nat>, sigR: seq<nat>, sigS: seq<nat>)

  datatype Loader = LdIdle | LdReq | LdWait | LdCapture

  datatype Slot = Slot(record: Record, jobIndex: nat, busy: bool, startPulse: bool, cycles: nat)

  /** The loader, the shadow record it fills, and the output register of the job memory it reads. */
  datatype LoadRegs = LoadRegs(state: Loader, shadow: Record, jobIndex: nat, valid: bool,
                               wordIndex: nat, wordBase: nat, dout: nat)

  /** A verify engine seen from outside: it latches a record at start and reports once, unless aborted. */
  datatype Unit = Resting | Working(record: Record) | Reporting(record: Record, verified: bool)

  datatype Snapshot = Snapshot(batchId: nat, accepted: nat, completed: nat, dropped: nat,
                               error: bool, resultValid: bool, errorCode: nat)

  datatype Regs = Regs(
    running: bool, load: LoadRegs, slot0: Slot, slot1: Slot,
    scheduled: nat, batchCompleted: nat, nextLoadJobIndex: nat, nextLoadWordBase: nat, abort: bool,
    busy: bool, done: bool, error: bool, resultValid: bool, errorCode: nat, resultMask: seq<bool>,
    accepted: nat, currentJobIndex: nat, jobsStarted: nat, jobsCompleted: nat, jobsDropped: nat,
    batchId: nat, snapshot: Snapshot, unit0: Unit, unit1: Unit)

  /** Module parameters. */
  datatype Params = Params(engines: nat, maxMessageBytes: nat, jobRamDepth: nat)

  /** The configuration inputs, which the register block holds. */
  datatype Config = Config(messageLength: nat, requestedJobCount: nat, dispatchLimit: nat, jobTimeoutCycles: nat)

  /** The inputs of one cycle; finish0 and finish1 say whether a working engine ends in it. */
  datatype Input = Input(start: bool, softReset: bool, config: Config, finish0: bool, finish1: bool)

  /** What the core is connected to: the job memory, and the verdict of an engine run on a record. */
  datatype World = World(jobs: seq<nat>, verdict: Record -> bool)

  function ZeroRecord(): Record {
    Record(seq(LANES, _ => 0), seq(LANES, _ => 0), seq(LANES, _ => 0))
  }

  function EmptySlot(): Slot {
    Slot(ZeroRecord(), 0, false, false, 0)
  }

  /** The registers after rst_n. */
  function ResetRegs(): Regs {
    Regs(false, LoadRegs(LdIdle, ZeroRecord(), 0, false, 0, 0, 0), EmptySlot(), EmptySlot(), 0, 0, 0, 0, false,
      false, false, false, false, ERR_NONE, seq(MASK_BITS, _ => false), 0, 0, 0, 0, 0, 0,
      Snapshot(0, 0, 0, 0, false, false, ERR_NONE), Resting, Resting)
  }

  function Job(w: World, i: nat): Record
    requires JOB_WORDS * i + JOB_WORDS <= |w.jobs|
  {
    var b := JOB_WORDS * i;
    Record(w.jobs[b..b + 8], w.jobs[b + 8..b + 16], w.jobs[b + 16..b + 24])
  }

  // ----- clearing, launching and ending a batch -----

  function ClearLiveState(s: Regs, clearCounters: bool): Regs {
    var t := s.(running := false, load := LoadRegs(LdIdle, ZeroRecord(), 0, false, 0, 0, s.load.dout),
      slot0 := EmptySlot(), slot1 := EmptySlot(),
      scheduled := 0, batchCompleted := 0, nextLoadJobIndex := 0, nextLoadWordBase := 0,
      busy := false, done := false, error := false, resultValid := false, errorCode := ERR_NONE,
      resultMask := seq(MASK_BITS, _ => false), accepted := 0, currentJobIndex := 0);
    if clearCounters then t.(jobsStarted := 0, jobsCompleted := 0, jobsDropped := 0) else t
  }

  function KickLoader(l: LoadRegs, wordBase: nat): LoadRegs {
    l.(wordBase := wordBase, wordIndex := 0, state := LdReq, shadow := ZeroRecord())
  }

  function FinalizeBatch(s: Regs, error: bool, errorCode: nat, completed: nat): Regs {
    s.(busy := false, done := true, error := error, resultValid := true, errorCode := errorCode,
      slot0 := s.slot0.(busy := false, cycles := 0), slot1 := s.slot1.(busy := false, cycles := 0),
      load := s.load.(valid := false, state := LdIdle), running := false,
      snapshot := Snapshot(s.batchId, s.accepted, completed, s.jobsDropped, error, true, errorCode))
  }

  function Rejected(s: Regs, launchId: nat, errorCode: nat): Regs {
    s.(done := true, error := true, errorCode := errorCode,
      snapshot := Snapshot(launchId, 0, 0, 0, true, false, errorCode))
  }

  function DispatchJobCount(c: Config): nat {
    var requested := c.requestedJobCount % TWO_8;
    var limit := if c.dispatchLimit == 0 then MAX_JOB_COUNT else c.dispatchLimit;
    if requested > limit then limit else requested
  }

  /** The error a launch ends in at once, or ERR_NONE when the batch is accepted. */
  function LaunchError(p: Params, c: Config): nat {
    if c.messageLength > p.maxMessageBytes then ERR_MESSAGE_LEN
    else if c.requestedJobCount == 0 || c.requestedJobCount > MAX_JOB_COUNT then ERR_JOB_COUNT
    else if DispatchJobCount(c) * (4 * JOB_WORDS) > p.jobRamDepth then ERR_JOB_RANGE
    else ERR_NONE
  }

  function LaunchBatch(p: Params, s: Regs, c: Config, clearCounters: bool): Regs {
    var launchId := (s.batchId + 1) % TWO_32;
    var t := ClearLiveState(s, clearCounters).(batchId := launchId);
    var n := DispatchJobCount(c);
    if LaunchError(p, c) != ERR_NONE then Rejected(t, launchId, LaunchError(p, c))
    else
      t.(load := KickLoader(t.load, 0), busy := true, accepted := n, scheduled := n, nextLoadJobIndex := 1,
        nextLoadWordBase := JOB_WORDS,
        jobsDropped := (t.jobsDropped + (c.requestedJobCount % TWO_8 - n)) % TWO_32,
        running := true)
  }

  // ----- one cycle -----

  /** Write one captured word into its lane of the shadow record. */
  function Capture(r: Record, index: nat, word: nat): Record {
    if index < 8 then (if index < |r.pubkey| then r.(pubkey := r.pubkey[index := word]) else r)
    else if index < 16 then (if index - 8 < |r.sigR| then r.(sigR := r.sigR[index - 8 := word]) else r)
    else if index - 16 < |r.sigS| then r.(sigS := r.sigS[index - 16 := word]) else r
  }

  /** The loader: request, wait, capture, 24 times; the memory answers a request with the next edge. */
  function LoaderCycle(l: LoadRegs, w: World): LoadRegs {
    match l.state
    case LdIdle => l
    case LdReq =>
      var address := l.wordBase + l.wordIndex;
      l.(state := LdWait, dout := if address < |w.jobs| then w.jobs[address] else l.dout)
    case LdWait => l.(state := LdCapture)
    case LdCapture =>
      var t := l.(shadow := Capture(l.shadow, l.wordIndex, l.dout));
      if l.wordIndex == JOB_WORDS - 1 then t.(state := LdIdle, valid := true)
      else t.(state := LdReq, wordIndex := l.wordIndex + 1)
  }

  function UnitNext(u: Unit, abort: bool, slot: Slot, finish: bool, w: World): Unit {
    if abort then Resting
    else if u.Working? then (if finish then Reporting(u.record, w.verdict(u.record)) else u)
    else if slot.startPulse then Working(slot.record)
    else Resting
  }

  /** A busy slot whose engine reports. */
  predicate DoneEvent(slot: Slot, u: Unit) {
    slot.busy && u.Reporting?
  }

  predicate TimedOut(slot: Slot, u: Unit, c: Config) {
    c.jobTimeoutCycles != 0 && slot.busy && !DoneEvent(slot, u) && (slot.cycles + 1) % TWO_32 >= c.jobTimeoutCycles
  }

  function Count(slot: Slot): Slot {
    slot.(startPulse := false, cycles := if slot.busy then (slot.cycles + 1) % TWO_32 else slot.cycles)
  }

  function Free(slot: Slot, event: bool): Slot {
    if event then slot.(busy := false, cycles := 0) else slot
  }

  function SetBit(mask: seq<bool>, slot: Slot, u: Unit): seq<bool> {
    if u.Reporting? && slot.jobIndex < |mask| then mask[slot.jobIndex := u.verified] else mask
  }

  function Fill(slot: Slot, s: Regs): Slot {
    Slot(s.load.shadow, s.load.jobIndex, true, true, 0)
  }

  /** The parts that move with every edge: the engines, and the one-cycle pulses. */
  function Edge(s: Regs, i: Input, w: World): Regs {
    s.(abort := false, slot0 := s.slot0.(startPulse := false), slot1 := s.slot1.(startPulse := false),
      unit0 := UnitNext(s.unit0, s.abort, s.slot0, i.finish0, w),
      unit1 := UnitNext(s.unit1, s.abort, s.slot1, i.finish1, w))
  }

  // ----- the run state -----

  predicate Event0(s: Regs) {
    DoneEvent(s.slot0, s.unit0)
  }

  predicate Event1(p: Params, s: Regs) {
    p.engines > 1 && DoneEvent(s.slot1, s.unit1)
  }

  function Events(p: Params, s: Regs): nat {
    (if Event0(s) then 1 else 0) + (if Event1(p, s) then 1 else 0)
  }

  function MaskNext(p: Params, s: Regs): seq<bool> {
    var mask := if Event0(s) then SetBit(s.resultMask, s.slot0, s.unit0) else s.resultMask;
    if Event1(p, s) then SetBit(mask, s.slot1, s.unit1) else mask
  }

  predicate Timeout(p: Params, s: Regs, c: Config) {
    TimedOut(s.slot0, s.unit0, c) || (p.engines > 1 && TimedOut(s.slot1, s.unit1, c))
  }

  /** s after the edge, the loader and the cycle counters moved. */
  function Moved(p: Params, s: Regs, i: Input, w: World): Regs {
    var t := Edge(s, i, w);
    t.(load := LoaderCycle(s.load, w),
      slot0 := Count(s.slot0), slot1 := if p.engines > 1 then Count(s.slot1) else t.slot1)
  }

  /** Results of this cycle recorded and their slots freed. */
  function Settled(p: Params, s: Regs, i: Input, w: World): Regs {
    var t := Moved(p, s, i, w);
    t.(resultMask := MaskNext(p, s), slot0 := Free(t.slot0, Event0(s)), slot1 := Free(t.slot1, Event1(p, s)),
      jobsCompleted := (s.jobsCompleted + Events(p, s)) % TWO_32,
      batchCompleted := (s.batchCompleted + Events(p, s)) % TWO_8)
  }

  /** After a hand-over: the shadow register is empty, and the next job, if any, starts loading. */
  function StartNextLoad(s: Regs, t: Regs): Regs {
    var u := t.(load := t.load.(valid := false), jobsStarted := (s.jobsStarted + 1) % TWO_32,
      currentJobIndex := s.load.jobIndex);
    if s.nextLoadJobIndex < s.scheduled then
      u.(load := KickLoader(u.load, s.nextLoadWordBase).(jobIndex := s.nextLoadJobIndex),
        nextLoadJobIndex := s.nextLoadJobIndex + 1, nextLoadWordBase := s.nextLoadWordBase + JOB_WORDS)
    else u
  }

  /** Hand the shadow record to a free engine, engine 0 first; s is the state before the edge. */
  function Dispatch(p: Params, s: Regs, t: Regs): Regs {
    if s.load.valid && (!s.slot0.busy || Event0(s)) then StartNextLoad(s, t.(slot0 := Fill(t.slot0, s)))
    else if s.load.valid && p.engines > 1 && (!s.slot1.busy || Event1(p, s)) then StartNextLoad(s, t.(slot1 := Fill(t.slot1, s)))
    else t
  }

  function RunCycle(p: Params, s: Regs, i: Input, w: World): Regs {
    var u := Settled(p, s, i, w);
    if Timeout(p, s, i.config) then FinalizeBatch(u, true, ERR_JOB_TIMEOUT, u.jobsCompleted).(abort := true)
    else if u.batchCompleted == s.scheduled then FinalizeBatch(u, false, ERR_NONE, u.jobsCompleted)
    else Dispatch(p, s, u)
  }

  function Next(p: Params, s: Regs, i: Input, w: World): Regs {
    if i.softReset && i.start then LaunchBatch(p, Edge(s, i, w).(abort := true), i.config, true)
    else if i.softReset then ClearLiveState(Edge(s, i, w).(abort := true), true)
    else if s.running then RunCycle(p, s, i, w)
    else if i.start then LaunchBatch(p, Moved(p, s, i, w), i.config, false)
    else Moved(p, s, i, w)
  }
}
