/**
 * The daemon driving the accelerator over its registers (tools/kv260_sigv_daemon/src/accelerator.rs):
 * single word reads and writes on the bus, and the order in which one batch is set up, started,
 * waited for and read back.
 */
module Daemon {
  import opened BatchSpec
  import opened BatchInvariant
  import Payload
  import opened System
  import AxiRegs
  import Bits
  import BatchCore
  import BatchRuns

  const MESSAGE_SIZE: nat := 0x1000
  const JOB_SIZE: nat := 0x8000
  const CONTROL_CMD_RESET_THEN_START: nat := 3

  /** The parameters of the deployed core. */
  function Deployed(): Params {
    Params(1, MESSAGE_SIZE, JOB_SIZE)
  }

  function IdleBus(): AxiRegs.Bus {
    AxiRegs.Bus(false, 0, false, 0, [false, false, false, false], true, false, 0, true)
  }

  /** Address and data of a full-word write in the same cycle. */
  function WriteBus(addr: nat, value: nat): AxiRegs.Bus {
    AxiRegs.Bus(true, addr, true, value, AxiRegs.AllLanes(), true, false, 0, true)
  }

  function ReadBus(addr: nat): AxiRegs.Bus {
    AxiRegs.Bus(false, 0, false, 0, [false, false, false, false], true, true, addr, true)
  }

  /** No transaction is open. */
  predicate BusIdle(a: AxiRegs.Axi) {
    !a.w.awSeen && !a.w.wSeen && !a.w.bvalid && !a.rd.rvalid
  }

  datatype VerifyMode = Strict | AgaveZebra

  function RegisterBits(m: VerifyMode): nat {
    if m == AgaveZebra then 1 else 0
  }

  datatype Request = Request(message: seq<nat>, jobs: seq<Payload.Job>, mode: VerifyMode, dispatchLimit: nat, jobTimeoutCycles: nat)

  datatype ServiceError = EmptyMessage | EmptyJobs | MessageTooLarge | TooManyJobs
    | CompletionTimeout | SnapshotBatchIdMismatch

  datatype BatchResult = BatchResult(batchId: nat, accepted: nat, completed: nat, dropped: nat,
                                     error: bool, resultValid: bool, errorCode: nat, resultBits: seq<bool>)

  /** Bytes are bytes, and the scalar fields fit their registers. */
  ghost predicate WellTyped(q: Request) {
    Bits.Below(q.message, 256) && Payload.AreJobs(q.jobs) && q.dispatchLimit < TWO_8 && q.jobTimeoutCycles < TWO_32
  }

  /** The request checks, in order; 255 jobs of 96 bytes always fit the job region. */
  function Refusal(q: Request): Decision {
    if q.message == [] then Refuse(EmptyMessage)
    else if q.jobs == [] then Refuse(EmptyJobs)
    else if |q.message| > MESSAGE_SIZE then Refuse(MessageTooLarge)
    else if |q.jobs| > MAX_JOB_COUNT then Refuse(TooManyJobs)
    else Proceed
  }

  /** A request proceeds with 1 to 4096 message bytes and 1 to 255 jobs; emptiness is refused first, then size. */
  lemma RefusalCases(q: Request)
    ensures Refusal(q).Proceed? <==> 1 <= |q.message| <= 4096 && 1 <= |q.jobs| <= 255
    ensures Refusal(q) == Refuse(EmptyMessage) <==> |q.message| == 0
    ensures Refusal(q) == Refuse(EmptyJobs) <==> |q.message| > 0 && |q.jobs| == 0
    ensures Refusal(q) == Refuse(MessageTooLarge) <==> |q.message| > 4096 && |q.jobs| > 0
    ensures Refusal(q) == Refuse(TooManyJobs) <==> 1 <= |q.message| <= 4096 && |q.jobs| > 255
  {
  }

  datatype Decision = Proceed | Refuse(error: ServiceError)

  /** What the registers hold for a request. */
  function SettingsOf(q: Request): AxiRegs.Settings {
    AxiRegs.Settings(|q.message|, |q.jobs|, RegisterBits(q.mode), q.dispatchLimit, q.jobTimeoutCycles)
  }

  /** Jobs beyond the dispatch limit are dropped. */
  function AcceptedJobs(q: Request): nat {
    if q.dispatchLimit != 0 && |q.jobs| > q.dispatchLimit then q.dispatchLimit else |q.jobs|
  }

  // ----- the accelerator between transactions -----

  /** No half-collected write. */
  predicate WriteIdle(a: AxiRegs.Axi) {
    !a.w.awSeen && !a.w.wSeen
  }

  /** The bus carries no write in this cycle. */
  predicate Silent(t: Tick) {
    !t.bus.awvalid && !t.bus.wvalid
  }

  lemma SilentStep(u: Setup, x: Sys, t: Tick)
    requires Silent(t) && WriteIdle(x.axi)
    ensures var y := Step(u, x, t);
      && WriteIdle(y.axi) && y.axi.pulses == AxiRegs.NoPulses() && y.axi.settings == x.axi.settings
      && y.axi.w.bvalid == (x.axi.w.bvalid && !t.bus.bready) && y.axi.rd == AxiRegs.Answer(x.axi, t.bus, x.core)
      && !Commands(x, t)
  {
    hide AxiRegs.Clocked, Next, AxiRegs.Answer, AxiRegs.Configure, AxiRegs.Command, AxiRegs.IsSetting;
    AxiRegs.ClockedFacts(x.axi, t.bus, x.core);
  }

  /** Nothing is running and no command is on its way. */
  ghost predicate AtRest(u: Setup, x: Sys) {
    WriteIdle(x.axi) && x.axi.pulses == AxiRegs.NoPulses() && Idle(u.params, WorldOf(u, x.axi.settings), x.core)
  }

  /** Settings that a launch on the deployed core accepts. */
  ghost predicate Launchable(c: AxiRegs.Settings) {
    LaunchError(Deployed(), ConfigOf(c)) == ERR_NONE
  }

  /** No command is on its way; a batch may still be running, over a memory that may have changed. */
  ghost predicate Usable(x: Sys) {
    && WriteIdle(x.axi) && x.axi.pulses == AxiRegs.NoPulses()
    && BatchRuns.Steady(Deployed(), x.core)
    && (x.core.busy ==> Launchable(x.axi.settings))
  }

  lemma UsableStep(u: Setup, x: Sys, t: Tick)
    requires u.params == Deployed() && Usable(x) && Silent(t)
    ensures var y := Step(u, x, t);
      Usable(y) && y.axi.settings == x.axi.settings && y.core.batchId == x.core.batchId && (!x.core.busy ==> !y.core.busy)
  {
    hide AxiRegs.Clocked, Next, AxiRegs.Answer, BatchRuns.Steady, Launchable;
    SilentStep(u, x, t);
    BatchRuns.SteadyStays(u.params, WorldOf(u, x.axi.settings), x.core, InputOf(x, t));
    CorePlods(u, x, t);
  }

  lemma RestIsUsable(u: Setup, x: Sys)
    requires u.params == Deployed() && AtRest(u, x)
    ensures Usable(x) && !x.core.busy
  {
    IdleNotBusy(u.params, WorldOf(u, x.axi.settings), x.core);
    hide Idle, Launchable;
  }

  // ----- a batch from its command on -----

  /** The batch with this id runs under configuration c, its counters having started at zero. */
  ghost predicate RunsFresh(u: Setup, c: AxiRegs.Settings, s: Regs, b: Batch) {
    b.config == ConfigOf(c) && b.completedBefore == b.droppedBefore == 0 && Running(u.params, WorldOf(u, c), s, b)
  }

  /** The batch is over: its snapshot is out, and without error every accepted job has its verdict. */
  ghost predicate Over(u: Setup, c: AxiRegs.Settings, s: Regs) {
    && !s.running && s.done
    && s.snapshot == Snapshot(s.batchId, DispatchJobCount(ConfigOf(c)), s.jobsCompleted, s.jobsDropped, s.error, true, s.errorCode)
    && |s.resultMask| == MASK_BITS
    && (if s.error then s.errorCode == ERR_JOB_TIMEOUT && c.jobTimeoutCycles != 0
        else s.errorCode == ERR_NONE && Verdicts(u, c, s))
  }

  ghost predicate Verdicts(u: Setup, c: AxiRegs.Settings, s: Regs) {
    var n := DispatchJobCount(ConfigOf(c));
    && s.jobsCompleted == n && s.jobsDropped == c.requestedJobCount - n
    && JOB_WORDS * n <= |u.memory.jobs|
    && |s.resultMask| == MASK_BITS && n <= MASK_BITS
    && (forall i :: 0 <= i < n ==> s.resultMask[i] == WorldOf(u, c).verdict(Job(WorldOf(u, c), i)))
    && (forall i :: n <= i < MASK_BITS ==> !s.resultMask[i])
  }

  /** From the commit of a reset-then-start command to the end of its batch and after. */
  ghost predicate Tracking(u: Setup, x: Sys, id: nat, c: AxiRegs.Settings) {
    && WriteIdle(x.axi) && x.axi.settings == c && Fresh(x, id)
    && Setting(u.params, WorldOf(u, c), ConfigOf(c))
    && (if x.axi.pulses.start then u.params.engines <= 1 ==> x.core.unit1.Resting? && !x.core.slot1.startPulse
        else (Over(u, c, x.core) && Idle(u.params, WorldOf(u, c), x.core)) || exists b: Batch :: RunsFresh(u, c, x.core, b))
  }

  lemma TrackingStep(u: Setup, x: Sys, t: Tick, id: nat, c: AxiRegs.Settings)
    requires Tracking(u, x, id, c) && Silent(t)
    ensures Tracking(u, Step(u, x, t), id, c)
    ensures !x.axi.pulses.start && !x.core.running ==> SameResults(x.core, Step(u, x, t).core)
  {
    hide AxiRegs.Clocked, Next, AxiRegs.Answer, Fresh, RunsFresh, Over, Setting, Commands, Idle;
    SilentStep(u, x, t);
    FreshStep(u, x, t, id);
    NoStalePulse(x, id);
    if x.axi.pulses.start {
      LaunchRuns(u, x, t, c);
    } else if Over(u, c, x.core) && Idle(u.params, WorldOf(u, c), x.core) {
      CorePlods(u, x, t);
      BatchRuns.IdleStays(u.params, WorldOf(u, c), WorldOf(u, c), x.core, InputOf(x, t));
      OverStays(u, c, x.core, Step(u, x, t).core);
    } else {
      var b :| RunsFresh(u, c, x.core, b);
      RunsOn(u, x, t, c, b);
    }
  }

  lemma NoStalePulse(x: Sys, id: nat)
    requires Fresh(x, id)
    ensures x.axi.pulses.start == x.axi.pulses.softReset
  {
    hide CoreAt;
  }

  lemma LaunchRuns(u: Setup, x: Sys, t: Tick, c: AxiRegs.Settings)
    requires x.axi.pulses.start && x.axi.pulses.softReset && x.axi.settings == c
    requires Setting(u.params, WorldOf(u, c), ConfigOf(c))
    requires u.params.engines <= 1 ==> x.core.unit1.Resting? && !x.core.slot1.startPulse
    ensures RunsFresh(u, c, Step(u, x, t).core, Begin(x.core, ConfigOf(c), true))
  {
    hide AxiRegs.Clocked, Next, Running, Setting;
    BatchRuns.ResetLaunch(u.params, WorldOf(u, c), x.core, InputOf(x, t));
  }

  lemma OverStays(u: Setup, c: AxiRegs.Settings, s: Regs, t: Regs)
    requires Over(u, c, s) && (!s.running ==> SameResults(s, t))
    ensures Over(u, c, t)
  {
    hide Job, DispatchJobCount;
  }

  lemma RunsOn(u: Setup, x: Sys, t: Tick, c: AxiRegs.Settings, b: Batch)
    requires RunsFresh(u, c, x.core, b) && !x.axi.pulses.start && !x.axi.pulses.softReset && x.axi.settings == c
    requires Setting(u.params, WorldOf(u, c), ConfigOf(c))
    ensures x.core.running
    ensures var s := Step(u, x, t).core;
      if s.running then RunsFresh(u, c, s, After(u.params, x.core, b)) else Over(u, c, s) && Idle(u.params, WorldOf(u, c), s)
  {
    hide AxiRegs.Clocked, Next, Running, Setting, Ended, Over, Idle;
    BusyRunning(u.params, WorldOf(u, c), x.core, b);
    RunKeeps(u.params, WorldOf(u, c), x.core, InputOf(x, t), b);
    if !Step(u, x, t).core.running {
      AcceptedCount(u.params, WorldOf(u, c), x.core, b);
      EndedIsOver(u, c, x.core, Step(u, x, t).core, After(u.params, x.core, b));
    }
  }

  lemma AcceptedCount(p: Params, w: World, s: Regs, b: Batch)
    requires Running(p, w, s, b)
    ensures s.accepted == DispatchJobCount(b.config)
  {
    hide DispatchJobCount;
  }

  lemma EndedIsOver(u: Setup, c: AxiRegs.Settings, s: Regs, t: Regs, b: Batch)
    requires Ended(u.params, WorldOf(u, c), s, t, b) && b.config == ConfigOf(c) && b.completedBefore == b.droppedBefore == 0
    requires s.accepted == DispatchJobCount(ConfigOf(c)) && Setting(u.params, WorldOf(u, c), ConfigOf(c))
    ensures Over(u, c, t) && Idle(u.params, WorldOf(u, c), t)
  {
    IdleNotRunning(u.params, WorldOf(u, c), t);
    hide Idle;
    CountsFit(u.params, WorldOf(u, c), ConfigOf(c));
    hide Job, DispatchJobCount, LaunchError;
  }

  lemma CountsFit(p: Params, w: World, c: Config)
    requires Setting(p, w, c)
    ensures DispatchJobCount(c) <= c.requestedJobCount <= MAX_JOB_COUNT
  {
  }

  // ----- how long a batch takes -----

  /** Tracking a batch with a timeout, whose watchdog has time left. */
  ghost predicate OnTime(u: Setup, x: Sys, id: nat, c: AxiRegs.Settings) {
    && Tracking(u, x, id, c) && BatchRuns.Armed(ConfigOf(c))
    && (!x.axi.pulses.start && x.core.running ==> BatchRuns.Ticking(x.core, c.jobTimeoutCycles))
  }

  /** A bound on the cycles until the batch is over. */
  function Left(x: Sys, c: AxiRegs.Settings): nat {
    if x.axi.pulses.start then 1 + Longest(c)
    else if x.core.running then BatchRuns.Potential(x.core, c.jobTimeoutCycles)
    else 0
  }

  /** The longest that a batch can run: its share for each job it accepts. */
  function Longest(c: AxiRegs.Settings): nat {
    DispatchJobCount(ConfigOf(c)) * BatchRuns.PerJob(c.jobTimeoutCycles)
  }

  /** Of a cycles left, n have passed. */
  predicate Passed(a: nat, b: nat, n: nat) {
    b <= if a > n then a - n else 0
  }

  /** Every cycle without a write brings the end one cycle nearer. */
  lemma OnTimeStep(u: Setup, x: Sys, t: Tick, id: nat, c: AxiRegs.Settings)
    requires OnTime(u, x, id, c) && Silent(t)
    ensures OnTime(u, Step(u, x, t), id, c) && Passed(Left(x, c), Left(Step(u, x, t), c), 1)
  {
    hide Step, Fresh, RunsFresh, Over, Setting, Idle, BatchRuns.Potential, BatchRuns.Ticking, BatchRuns.Armed, Longest;
    TrackingStep(u, x, t, id, c);
    SilentStep(u, x, t);
    NoStalePulse(x, id);
    if x.axi.pulses.start {
      LaunchTakes(u, x, t, c);
    } else if x.core.running {
      RunTakes(u, x, t, id, c);
    } else {
      StaysOver(u, x, t, id, c);
    }
  }

  lemma LaunchTakes(u: Setup, x: Sys, t: Tick, c: AxiRegs.Settings)
    requires x.axi.pulses.start && x.axi.pulses.softReset && x.axi.settings == c
    requires Setting(u.params, WorldOf(u, c), ConfigOf(c)) && BatchRuns.Armed(ConfigOf(c))
    ensures var s := Step(u, x, t).core;
      BatchRuns.Ticking(s, c.jobTimeoutCycles) && BatchRuns.Potential(s, c.jobTimeoutCycles) == Longest(c)
  {
    hide AxiRegs.Clocked, Next, Setting, BatchRuns.Potential, BatchRuns.PerJob, DispatchJobCount, BatchRuns.Ticking;
    BatchRuns.FirstPotential(u.params, WorldOf(u, c), x.core, InputOf(x, t), ConfigOf(c));
  }

  lemma RunTakes(u: Setup, x: Sys, t: Tick, id: nat, c: AxiRegs.Settings)
    requires OnTime(u, x, id, c) && x.core.running && !x.axi.pulses.start && !x.axi.pulses.softReset
    ensures var s := Step(u, x, t).core;
      && BatchRuns.Potential(x.core, c.jobTimeoutCycles) >= 1
      && (s.running ==> BatchRuns.Ticking(s, c.jobTimeoutCycles))
      && (s.running ==> BatchRuns.Potential(s, c.jobTimeoutCycles) < BatchRuns.Potential(x.core, c.jobTimeoutCycles))
  {
    hide AxiRegs.Clocked, Next, Setting, BatchRuns.Potential, Fresh, Over, Running, BatchRuns.Armed;
    OverIdles(u, c, x.core);
    var b: Batch :| RunsFresh(u, c, x.core, b);
    BatchRuns.PotentialPositive(u.params, WorldOf(u, c), x.core, b, c.jobTimeoutCycles);
    BatchRuns.PotentialFalls(u.params, WorldOf(u, c), x.core, InputOf(x, t), b);
  }

  lemma OverIdles(u: Setup, c: AxiRegs.Settings, s: Regs)
    ensures Over(u, c, s) ==> !s.running
  {
    hide Verdicts;
  }

  lemma StaysOver(u: Setup, x: Sys, t: Tick, id: nat, c: AxiRegs.Settings)
    requires Tracking(u, x, id, c) && Silent(t) && !x.core.running && !x.axi.pulses.start
    ensures !Step(u, x, t).core.running && Over(u, c, x.core)
  {
    hide Step, Fresh, Over, Setting, Idle, Running;
    if !Over(u, c, x.core) {
      var b: Batch :| RunsFresh(u, c, x.core, b);
      StillRunning(u, c, x.core, b);
    }
    TrackingStep(u, x, t, id, c);
    OverStays(u, c, x.core, Step(u, x, t).core);
    OverIdles(u, c, Step(u, x, t).core);
  }

  lemma StillRunning(u: Setup, c: AxiRegs.Settings, s: Regs, b: Batch)
    requires RunsFresh(u, c, s, b)
    ensures s.running
  {
    hide Counters, Partition, ShadowHolds, SlotHolds, MaskHolds;
  }

  lemma OnTimeTwice(u: Setup, x: Sys, t1: Tick, t2: Tick, id: nat, c: AxiRegs.Settings)
    requires OnTime(u, x, id, c) && Silent(t1) && Silent(t2)
    ensures var y := Step(u, Step(u, x, t1), t2); OnTime(u, y, id, c) && Passed(Left(x, c), Left(y, c), 2)
  {
    hide Step, OnTime, Left;
    OnTimeStep(u, x, t1, id, c);
    OnTimeStep(u, Step(u, x, t1), t2, id, c);
  }

  lemma JustCommanded(u: Setup, x: Sys, id: nat, c: AxiRegs.Settings)
    requires Tracking(u, x, id, c) && BatchRuns.Armed(ConfigOf(c)) && x.axi.pulses.start
    ensures OnTime(u, x, id, c) && Left(x, c) == 1 + Longest(c)
  {
    hide Tracking, BatchRuns.Armed, Longest;
  }

  /** With no cycles left the status word shows done. */
  lemma NothingLeft(u: Setup, x: Sys, id: nat, c: AxiRegs.Settings)
    requires OnTime(u, x, id, c) && x.axi.pulses == AxiRegs.NoPulses() && Left(x, c) == 0
    ensures StatusBits(AxiRegs.ReadWord(x.axi, x.core, AxiRegs.ADDR_STATUS)).1
  {
    hide StatusBits, AxiRegs.StatusWord, AxiRegs.MaskWord, Fresh, Setting, Idle, Running, Verdicts, BatchRuns.Potential;
    StatusDecodes(x.axi, x.core);
    if x.core.running {
      RunTakes(u, x, Tick(IdleBus(), false, false), id, c);
    } else {
      var t := Tick(IdleBus(), false, false);
      StaysOver(u, x, t, id, c);
    }
  }

  lemma MoreCycles(k: nat, n: nat)
    ensures (k + 1) * n == k * n + n
  {
  }

  // ----- register writes -----

  /** The cycle in which a full-word write commits. */
  ghost predicate Writes(x: Sys, t: Tick, addr: nat, value: nat) {
    WriteIdle(x.axi) && !x.axi.w.bvalid && t.bus == WriteBus(addr, value)
  }

  lemma WriteCommits(x: Sys, t: Tick, addr: nat, value: nat)
    requires Writes(x, t, addr, value)
    ensures AxiRegs.Commits(x.axi.w, t.bus)
    ensures AxiRegs.Committed(x.axi.w, t.bus) == AxiRegs.Write(addr, value, AxiRegs.AllLanes())
    ensures var c := AxiRegs.Collect(x.axi.w, t.bus); !c.awSeen && !c.wSeen && c.bvalid
    ensures x.axi.rd.rvalid == false ==> AxiRegs.Answer(x.axi, t.bus, x.core).rvalid == false
  {
    hide AxiRegs.ReadWord;
  }

  /** A setting written while a batch runs is dropped; otherwise it takes effect. */
  lemma UsableSettingStep(u: Setup, x: Sys, t: Tick, addr: nat, value: nat)
    requires u.params == Deployed() && Usable(x) && Writes(x, t, addr, value) && addr % 4 == 0 && AxiRegs.IsSetting(addr)
    ensures var y := Step(u, x, t);
      && Usable(y) && y.core.batchId == x.core.batchId && (!x.core.busy ==> !y.core.busy)
      && y.axi.w.bvalid && y.axi.rd == AxiRegs.Answer(x.axi, t.bus, x.core)
      && y.axi.settings == if x.core.busy then x.axi.settings
        else AxiRegs.Configure(x.axi.settings, addr, AxiRegs.Write(addr, value, AxiRegs.AllLanes()))
  {
    hide AxiRegs.Clocked, Next, AxiRegs.Answer, BatchRuns.Steady, Launchable, AxiRegs.Commits, AxiRegs.Committed, AxiRegs.Collect;
    hide AxiRegs.Configure, AxiRegs.Command;
    WriteCommits(x, t, addr, value);
    assert addr / 4 * 4 == addr;
    AxiRegs.ClockedFacts(x.axi, t.bus, x.core);
    BatchRuns.SteadyStays(u.params, WorldOf(u, x.axi.settings), x.core, InputOf(x, t));
    CorePlods(u, x, t);
  }

  lemma IdleNotBusy(p: Params, w: World, s: Regs)
    requires Idle(p, w, s)
    ensures !s.busy && !s.running && !s.slot1.startPulse && (p.engines <= 1 ==> s.unit1.Resting?)
  {
  }

  /** The reset-then-start command starts the tracking of the next batch id, even while a batch runs. */
  lemma CommandStep(u: Setup, x: Sys, t: Tick)
    requires u.params == Deployed() && Usable(x) && Writes(x, t, AxiRegs.ADDR_CONTROL, CONTROL_CMD_RESET_THEN_START)
    requires Setting(u.params, WorldOf(u, x.axi.settings), ConfigOf(x.axi.settings))
    ensures var y := Step(u, x, t);
      && Tracking(u, y, (x.core.batchId + 1) % TWO_32, x.axi.settings)
      && y.axi.w.bvalid && y.axi.rd == AxiRegs.Answer(x.axi, t.bus, x.core) && y.axi.pulses.start
  {
    hide AxiRegs.Clocked, Next, AxiRegs.Answer, BatchRuns.Steady, AxiRegs.Commits, AxiRegs.Committed, AxiRegs.Collect;
    hide AxiRegs.ApplyStrobe, Setting, Fresh, Launchable;
    WriteCommits(x, t, AxiRegs.ADDR_CONTROL, CONTROL_CMD_RESET_THEN_START);
    AxiRegs.FullStrobe(0, CONTROL_CMD_RESET_THEN_START, AxiRegs.AllLanes());
    AxiRegs.ClockedFacts(x.axi, t.bus, x.core);
    CommandIsFresh(u, x, t);
    BatchRuns.SteadyStays(u.params, WorldOf(u, x.axi.settings), x.core, InputOf(x, t));
    SteadyOne(u.params, Step(u, x, t).core);
  }

  lemma SteadyOne(p: Params, s: Regs)
    requires BatchRuns.Steady(p, s)
    ensures p.engines <= 1 ==> s.unit1.Resting? && !s.slot1.startPulse
  {
  }

  // ----- the four settings of a request, of which the first ones may be dropped -----

  /** Settings c with the first `dropped` of the first `written` writes dropped and the rest taken. */
  function Partly(c: AxiRegs.Settings, q: Request, dropped: nat, written: nat): AxiRegs.Settings {
    AxiRegs.Settings(
      if dropped <= 0 < written then |q.message| else c.messageLength,
      if dropped <= 1 < written then |q.jobs| else c.requestedJobCount,
      if dropped <= 2 < written then RegisterBits(q.mode) else c.verifyMode,
      if dropped <= 2 < written then q.dispatchLimit else c.dispatchLimit,
      if dropped <= 3 < written then q.jobTimeoutCycles else c.jobTimeoutCycles)
  }

  /** The address and word of each write, in order. */
  function SettingAddr(i: nat): nat {
    if i == 0 then AxiRegs.ADDR_MESSAGE_LEN else if i == 1 then AxiRegs.ADDR_JOB_COUNT
    else if i == 2 then AxiRegs.ADDR_VERIFY_CFG else AxiRegs.ADDR_JOB_TIMEOUT_CYCLES
  }

  function SettingWord(q: Request, i: nat): nat {
    if i == 0 then |q.message| else if i == 1 then |q.jobs|
    else if i == 2 then 256 * q.dispatchLimit + RegisterBits(q.mode) else q.jobTimeoutCycles
  }

  lemma OneMoreSetting(c: AxiRegs.Settings, q: Request, dropped: nat, i: nat)
    requires WellTyped(q) && Refusal(q).Proceed? && dropped <= i < 4
    ensures SettingAddr(i) % 4 == 0 && AxiRegs.IsSetting(SettingAddr(i))
    ensures Partly(c, q, i + 1, i + 1) == c == Partly(c, q, i, i)
    ensures AxiRegs.Configure(Partly(c, q, dropped, i), SettingAddr(i),
      AxiRegs.Write(SettingAddr(i), SettingWord(q, i), AxiRegs.AllLanes())) == Partly(c, q, dropped, i + 1)
  {
    hide AxiRegs.ApplyStrobe, Payload.AreJobs, Bits.Below;
    var all, p := AxiRegs.AllLanes(), Partly(c, q, dropped, i);
    AxiRegs.FullStrobe(p.messageLength, |q.message|, all);
    AxiRegs.FullStrobe(p.requestedJobCount, |q.jobs|, all);
    AxiRegs.FullStrobe(256 * p.dispatchLimit + p.verifyMode, SettingWord(q, 2), all);
    AxiRegs.FullStrobe(p.jobTimeoutCycles, q.jobTimeoutCycles, all);
  }

  lemma PartlyLaunchable(c: AxiRegs.Settings, q: Request, dropped: nat)
    requires WellTyped(q) && Refusal(q).Proceed? && dropped <= 4 && (dropped > 0 ==> Launchable(c))
    ensures Launchable(Partly(c, q, dropped, 4)) && Partly(c, q, dropped, 4).requestedJobCount <= MAX_JOB_COUNT
    ensures Partly(c, q, 0, 4) == SettingsOf(q)
  {
    hide Payload.AreJobs, Bits.Below;
  }

  // ----- reads -----

  /** A read answered in one cycle and retired in the next. */
  lemma ReadRetires(u: Setup, x: Sys, t1: Tick, t2: Tick, addr: nat)
    requires BusIdle(x.axi) && t1.bus == ReadBus(addr) && t2.bus == IdleBus()
    ensures var y := Step(u, x, t1);
      && y.axi.rd == AxiRegs.ReadChannel(true, AxiRegs.ReadWord(x.axi, x.core, addr))
      && BusIdle(Step(u, y, t2).axi)
  {
    hide Step, AxiRegs.ReadWord;
    SilentStep(u, x, t1);
    SilentStep(u, Step(u, x, t1), t2);
  }

  class Accelerator {
    const regs: AxiRegs.Registers
    const core: BatchCore.Core
    const judge: Judge
    const messageWords: array<nat>
    const jobWords: array<nat>

    constructor (j: Judge)
      ensures Valid() && judge == j && BusIdle(State().axi)
      ensures AtRest(Fixed(), State()) && Usable(State()) && !State().core.busy
      ensures fresh(regs) && fresh(core) && fresh(messageWords) && fresh(jobWords)
    {
      regs := new AxiRegs.Registers();
      core := new BatchCore.Core(Deployed());
      judge := j;
      messageWords, jobWords := new nat[1024], new nat[8192];
      new;
      ResetIdle(Deployed(), WorldOf(Fixed(), State().axi.settings));
      hide Idle, Usable;
      RestIsUsable(Fixed(), State());
    }

    ghost predicate Valid() {
      core.params == Deployed() && messageWords.Length == MESSAGE_SIZE / 4 && jobWords.Length == JOB_SIZE / 4
    }

    function State(): Sys
      reads regs, core
    {
      Sys(regs.r, core.r)
    }

    function Fixed(): Setup
      reads messageWords, jobWords
    {
      Setup(Deployed(), Memory(jobWords[..], messageWords[..]), judge)
    }

    /** One clock edge; the engines end when they like. */
    method Cycle(bus: AxiRegs.Bus) returns (ghost t: Tick)
      requires Valid()
      modifies regs, core
      ensures t.bus == bus && State() == Step(Fixed(), old(State()), t)
    {
      var finish0: bool := *;
      var finish1: bool := *;
      t := Tick(bus, finish0, finish1);
      var s, a := core.r, regs.r;
      regs.Clock(bus, s);
      core.Clock(Input(a.pulses.start, a.pulses.softReset, ConfigOf(a.settings), finish0, finish1), WorldOf(Fixed(), a.settings));
    }

    /** A 32-bit read; the accelerator runs on meanwhile. */
    method ReadReg(addr: nat, ghost id: nat, ghost c: AxiRegs.Settings) returns (value: nat)
      requires Valid() && BusIdle(State().axi)
      modifies regs, core
      ensures BusIdle(State().axi) && value == old(AxiRegs.ReadWord(State().axi, State().core, addr))
      ensures State().axi.pulses == AxiRegs.NoPulses()
      ensures old(Usable(State())) ==> UsableAs(old(State()))
      ensures old(Tracking(Fixed(), State(), id, c)) ==> TracksAs(old(State()), id, c)
      ensures old(OnTime(Fixed(), State(), id, c)) ==> NearerBy(old(State()), id, c, 2)
    {
      hide Step, Usable, Tracking, SameResults, AxiRegs.ReadWord, OnTime, Left;
      ghost var u, x := Fixed(), State();
      ghost var t1 := Cycle(ReadBus(addr));
      value := regs.r.rd.rdata;
      ghost var y := State();
      ghost var t2 := Cycle(IdleBus());
      ReadRetires(u, x, t1, t2, addr);
      SilentTwice(u, x, t1, t2);
      if Usable(x) {
        UsableStep(u, x, t1);
        UsableStep(u, y, t2);
      }
      if Tracking(u, x, id, c) {
        TrackingTwice(u, x, t1, t2, id, c);
      }
      if OnTime(u, x, id, c) {
        OnTimeTwice(u, x, t1, t2, id, c);
      }
    }

    /** Between requests as before: no setting changed, and a core that was not busy still is not. */
    ghost predicate UsableAs(x: Sys)
      reads regs, core
    {
      && Usable(State()) && State().axi.settings == x.axi.settings && State().core.batchId == x.core.batchId
      && (!x.core.busy ==> !State().core.busy)
    }

    /** Still tracking; once the batch is over, with the same results. */
    ghost predicate TracksAs(x: Sys, id: nat, c: AxiRegs.Settings)
      reads regs, core, messageWords, jobWords
    {
      && Tracking(Fixed(), State(), id, c)
      && (!x.axi.pulses.start && !x.core.running ==> SameResults(x.core, State().core) && !State().axi.pulses.start)
    }

    /** Still on time, and n cycles nearer to the end. */
    ghost predicate NearerBy(x: Sys, id: nat, c: AxiRegs.Settings, n: nat)
      reads regs, core, messageWords, jobWords
    {
      OnTime(Fixed(), State(), id, c) && Passed(Left(x, c), Left(State(), c), n)
    }

    /** Cycles without any transaction. */
    method Sleep(cycles: nat, ghost id: nat, ghost c: AxiRegs.Settings)
      requires Valid() && BusIdle(State().axi) && Tracking(Fixed(), State(), id, c)
      modifies regs, core
      ensures BusIdle(State().axi) && Tracking(Fixed(), State(), id, c)
      ensures old(State().axi.pulses) == AxiRegs.NoPulses() ==> State().axi.pulses == AxiRegs.NoPulses()
      ensures old(OnTime(Fixed(), State(), id, c)) ==> NearerBy(old(State()), id, c, cycles)
    {
      hide Step, Tracking, OnTime, Left;
      for i := 0 to cycles
        invariant BusIdle(State().axi) && Tracking(Fixed(), State(), id, c)
        invariant old(State().axi.pulses) == AxiRegs.NoPulses() ==> State().axi.pulses == AxiRegs.NoPulses()
        invariant old(OnTime(Fixed(), State(), id, c)) ==> NearerBy(old(State()), id, c, i)
      {
        ghost var x := State();
        ghost var t := Cycle(IdleBus());
        SilentStep(Fixed(), x, t);
        TrackingStep(Fixed(), x, t, id, c);
        if OnTime(Fixed(), x, id, c) {
          OnTimeStep(Fixed(), x, t, id, c);
        }
      }
    }

    /** A configuration write: taken unless the core is busy. */
    method WriteSetting(addr: nat, value: nat)
      requires Valid() && BusIdle(State().axi) && Usable(State())
      requires addr % 4 == 0 && AxiRegs.IsSetting(addr)
      modifies regs, core
      ensures BusIdle(State().axi) && Usable(State()) && State().core.batchId == old(State()).core.batchId
      ensures !old(State()).core.busy ==> !State().core.busy
      ensures State().axi.settings == if old(State()).core.busy then old(State()).axi.settings
        else AxiRegs.Configure(old(State()).axi.settings, addr, AxiRegs.Write(addr, value, AxiRegs.AllLanes()))
    {
      hide Step, Usable, AxiRegs.Configure;
      ghost var u, x := Fixed(), State();
      UsableIdle(x);
      ghost var t1 := Cycle(WriteBus(addr, value));
      UsableSettingStep(u, x, t1, addr, value);
      WriteCommits(x, t1, addr, value);
      ghost var y := State();
      ghost var t2 := Cycle(IdleBus());
      UsableIdle(y);
      SilentStep(u, y, t2);
      UsableStep(u, y, t2);
    }

    /** Cycles between requests without any transaction. */
    method Wait(cycles: nat)
      requires Valid() && BusIdle(State().axi) && Usable(State())
      modifies regs, core
      ensures BusIdle(State().axi) && UsableAs(old(State()))
    {
      hide Step, Usable;
      for i := 0 to cycles
        invariant BusIdle(State().axi) && UsableAs(old(State()))
      {
        ghost var x := State();
        UsableIdle(x);
        ghost var t := Cycle(IdleBus());
        SilentStep(Fixed(), x, t);
        UsableStep(Fixed(), x, t);
      }
    }

    /** The reset-then-start command. */
    method StartBatch()
      requires Valid() && BusIdle(State().axi) && Usable(State())
      requires Setting(Deployed(), WorldOf(Fixed(), State().axi.settings), ConfigOf(State().axi.settings))
      modifies regs, core
      ensures BusIdle(State().axi)
      ensures Tracking(Fixed(), State(), (old(State()).core.batchId + 1) % TWO_32, old(State()).axi.settings)
      ensures State().axi.pulses == AxiRegs.NoPulses()
      ensures BatchRuns.Armed(ConfigOf(old(State()).axi.settings)) ==>
        && OnTime(Fixed(), State(), (old(State()).core.batchId + 1) % TWO_32, old(State()).axi.settings)
        && Left(State(), old(State()).axi.settings) <= Longest(old(State()).axi.settings)
    {
      hide Step, Usable, Tracking, Setting, OnTime, Left, Longest, BatchRuns.Armed;
      ghost var u, x := Fixed(), State();
      UsableIdle(x);
      ghost var t1 := Cycle(WriteBus(AxiRegs.ADDR_CONTROL, CONTROL_CMD_RESET_THEN_START));
      CommandStep(u, x, t1);
      WriteCommits(x, t1, AxiRegs.ADDR_CONTROL, CONTROL_CMD_RESET_THEN_START);
      ghost var y := State();
      ghost var t2 := Cycle(IdleBus());
      TrackingIdle(u, y, (x.core.batchId + 1) % TWO_32, x.axi.settings);
      SilentStep(u, y, t2);
      TrackingStep(u, y, t2, (x.core.batchId + 1) % TWO_32, x.axi.settings);
      if BatchRuns.Armed(ConfigOf(x.axi.settings)) {
        JustCommanded(u, y, (x.core.batchId + 1) % TWO_32, x.axi.settings);
        OnTimeStep(u, y, t2, (x.core.batchId + 1) % TWO_32, x.axi.settings);
      }
    }

    /** Both memories filled for a request, in however many cycles that takes. */
    method WritePayload(q: Request)
      requires Valid() && BusIdle(State().axi) && Usable(State()) && WellTyped(q) && Refusal(q).Proceed?
      modifies regs, core, messageWords, jobWords
      ensures BusIdle(State().axi) && UsableAs(old(State()))
      ensures messageWords[..] == Payload.Layout(q.message, 1024)
      ensures jobWords[..] == Payload.Layout(Payload.Packed(q.jobs), 8192)
    {
      hide Payload.Layout, Payload.Packed, Usable;
      var bytes := Payload.PackJobs(q.jobs);
      Payload.PackedAt(q.jobs, 0);
      var _ := Payload.WriteBytesAsWords(q.message, MESSAGE_SIZE, messageWords);
      var _ := Payload.WriteBytesAsWords(bytes, JOB_SIZE, jobWords);
      var cycles: nat := *;
      Wait(cycles);
    }

    /** The i-th setting; `dropped` counts the writes dropped so far, all of them before any that is taken. */
    method PutSetting(q: Request, i: nat, ghost c: AxiRegs.Settings, ghost dropped: nat) returns (ghost next: nat)
      requires Valid() && BusIdle(State().axi) && Usable(State()) && WellTyped(q) && Refusal(q).Proceed?
      requires dropped <= i < 4 && State().axi.settings == Partly(c, q, dropped, i)
      requires State().core.busy ==> dropped == i
      modifies regs, core
      ensures BusIdle(State().axi) && Usable(State()) && State().core.batchId == old(State()).core.batchId
      ensures next <= i + 1 && State().axi.settings == Partly(c, q, next, i + 1)
      ensures if old(State()).core.busy then next == i + 1 else !State().core.busy && next == dropped
    {
      hide Usable, AxiRegs.Configure, Launchable, Partly, SettingAddr, SettingWord, AxiRegs.IsSetting;
      OneMoreSetting(c, q, dropped, i);
      next := if State().core.busy then i + 1 else dropped;
      WriteSetting(SettingAddr(i), SettingWord(q, i));
    }

    /** The four configuration registers; on a core still busy the first `dropped` writes have no effect. */
    method WriteSettings(q: Request) returns (ghost dropped: nat)
      requires Valid() && BusIdle(State().axi) && Usable(State()) && WellTyped(q) && Refusal(q).Proceed?
      modifies regs, core
      ensures BusIdle(State().axi) && Usable(State()) && State().core.batchId == old(State()).core.batchId
      ensures dropped <= 4 && (dropped == 0 <==> !old(State()).core.busy) && (State().core.busy ==> dropped == 4)
      ensures State().axi.settings == Partly(old(State()).axi.settings, q, dropped, 4)
      ensures Launchable(State().axi.settings) && State().axi.settings.requestedJobCount <= MAX_JOB_COUNT
      ensures dropped == 0 ==> State().axi.settings == SettingsOf(q)
    {
      hide Usable, AxiRegs.Configure, Launchable, Partly, SettingAddr, SettingWord, AxiRegs.IsSetting;
      ghost var c := State().axi.settings;
      ghost var x := State();
      BusyLaunchable(x);
      PartlyNone(c, q);
      dropped := PutSetting(q, 0, c, 0);
      dropped := PutSetting(q, 1, c, dropped);
      dropped := PutSetting(q, 2, c, dropped);
      dropped := PutSetting(q, 3, c, dropped);
      PartlyLaunchable(c, q, dropped);
    }

    /**
     * Poll the status register until it shows done or error, or the deadline passes. With a timeout set the
     * deadline does not pass when the polls span the cycles that the batch can still take.
     */
    method PollUntilComplete(polls: nat, interval: nat, ghost id: nat, ghost c: AxiRegs.Settings) returns (complete: bool)
      requires Valid() && BusIdle(State().axi) && Tracking(Fixed(), State(), id, c)
      requires State().axi.pulses == AxiRegs.NoPulses()
      modifies regs, core
      ensures BusIdle(State().axi) && Tracking(Fixed(), State(), id, c) && State().axi.pulses == AxiRegs.NoPulses()
      ensures complete ==> Done(Fixed(), State(), id, c)
      ensures old(OnTime(Fixed(), State(), id, c) && polls * (interval + 2) >= Left(State(), c)) ==> complete
    {
      hide Step, Tracking, AxiRegs.ReadWord, StatusBits, SameResults, Done, OnTime, Left;
      ghost var x := State();
      ghost var timed, bound := OnTime(Fixed(), x, id, c), Left(x, c);
      var word := ReadReg(AxiRegs.ADDR_STATUS, id, c);
      ShownWhenOver(x, word, id, c);
      DoneWhenShown(Fixed(), x, State(), id, c);
      var left: nat := polls;
      ghost var spent: nat := 0;
      while !StatusBits(word).1 && !StatusBits(word).2
        invariant BusIdle(State().axi) && Tracking(Fixed(), State(), id, c) && State().axi.pulses == AxiRegs.NoPulses()
        invariant StatusBits(word).1 || StatusBits(word).2 ==> Done(Fixed(), State(), id, c)
        invariant left <= polls && spent == (polls - left) * (interval + 2)
        invariant timed ==> OnTime(Fixed(), State(), id, c) && Passed(bound, Left(State(), c), spent + 2)
        invariant timed && !StatusBits(word).1 ==> spent < bound
        decreases left
      {
        if left == 0 {
          return false;
        }
        Sleep(interval, id, c);
        MoreCycles(polls - left, interval + 2);
        spent := spent + (interval + 2);
        left := left - 1;
        x := State();
        word := ReadReg(AxiRegs.ADDR_STATUS, id, c);
        ShownWhenOver(x, word, id, c);
        DoneWhenShown(Fixed(), x, State(), id, c);
      }
      complete := true;
    }

    lemma ShownWhenOver(x: Sys, word: nat, id: nat, c: AxiRegs.Settings)
      requires word == AxiRegs.ReadWord(x.axi, x.core, AxiRegs.ADDR_STATUS) && x.axi.pulses == AxiRegs.NoPulses()
      ensures OnTime(Fixed(), x, id, c) && Left(x, c) == 0 ==> StatusBits(word).1
    {
      hide OnTime, Left, AxiRegs.ReadWord, StatusBits;
      if OnTime(Fixed(), x, id, c) && Left(x, c) == 0 {
        NothingLeft(Fixed(), x, id, c);
      }
    }

    /** Read one result register of a batch that is over; s holds its results. */
    method ReadResult(addr: nat, ghost s: Regs, ghost id: nat, ghost c: AxiRegs.Settings) returns (value: nat)
      requires Valid() && BusIdle(State().axi) && Done(Fixed(), State(), id, c) && SameResults(s, State().core)
      requires IsResult(addr)
      modifies regs, core
      ensures BusIdle(State().axi) && Done(Fixed(), State(), id, c) && SameResults(s, State().core)
      ensures State().axi.pulses == AxiRegs.NoPulses()
      ensures value == ResultWord(s, addr)
    {
      hide Step, Tracking, AxiRegs.ReadWord, SameResults, Over, IsResult, ResultWord;
      ghost var x := State();
      ResultReads(x.axi, s, x.core, addr);
      value := ReadReg(addr, id, c);
      StillDone(Fixed(), s, x, State(), id, c);
    }

    /** read_result_mask. */
    method ReadResultMask(ghost s: Regs, ghost id: nat, ghost c: AxiRegs.Settings) returns (words: seq<nat>)
      requires Valid() && BusIdle(State().axi) && Done(Fixed(), State(), id, c) && SameResults(s, State().core)
      requires |s.resultMask| == MASK_BITS
      requires State().axi.pulses == AxiRegs.NoPulses()
      modifies regs, core
      ensures State().axi.pulses == AxiRegs.NoPulses()
      ensures BusIdle(State().axi) && Done(Fixed(), State(), id, c) && SameResults(s, State().core)
      ensures |words| == 8 && forall k :: 0 <= k < 8 ==> words[k] == AxiRegs.MaskWord(s.resultMask, k)
    {
      hide Done, SameResults, AxiRegs.MaskWord, ResultWord, IsResult;
      words := [];
      for index := 0 to 8
        invariant BusIdle(State().axi) && Done(Fixed(), State(), id, c) && SameResults(s, State().core)
        invariant State().axi.pulses == AxiRegs.NoPulses()
        invariant |words| == index && forall k :: 0 <= k < index ==> words[k] == AxiRegs.MaskWord(s.resultMask, k)
      {
        MaskRead(s, index);
        var word := ReadResult(AxiRegs.ADDR_RESULT_MASK_WORD0 + 4 * index, s, id, c);
        words := words + [word];
      }
    }

    /**
     * read_snapshot, the comparison of the batch id, and read_result_mask: everything belongs to the one
     * batch that is over.
     */
    method ReadResults(expected: nat, ghost id: nat, ghost c: AxiRegs.Settings)
        returns (r: Payload.Result<BatchResult, ServiceError>)
      requires Valid() && BusIdle(State().axi) && Done(Fixed(), State(), id, c) && c.requestedJobCount <= MAX_JOB_COUNT
      modifies regs, core
      ensures BusIdle(State().axi) && Done(Fixed(), State(), id, c) && State().axi.pulses == AxiRegs.NoPulses()
      ensures State().core.snapshot.accepted <= |State().core.resultMask|
      ensures r == if State().core.snapshot.batchId == expected then Payload.Ok(ResultOf(State().core))
        else Payload.Err(SnapshotBatchIdMismatch)
    {
      hide Tracking, SameResults, Over, ResultWord, IsResult, AxiRegs.MaskWord;
      ghost var s := State().core;
      SnapshotReads(Fixed(), c, s);
      SameSelf(s);
      var errStatus := ReadResult(AxiRegs.ADDR_SNAPSHOT_ERR_STATUS, s, id, c);
      var batchId := ReadResult(AxiRegs.ADDR_SNAPSHOT_BATCH_ID, s, id, c);
      var accepted := ReadResult(AxiRegs.ADDR_SNAPSHOT_ACCEPTED, s, id, c);
      var completed := ReadResult(AxiRegs.ADDR_SNAPSHOT_COMPLETED, s, id, c);
      var dropped := ReadResult(AxiRegs.ADDR_SNAPSHOT_DROPPED, s, id, c);
      if batchId != expected {
        SameResult(s, State().core);
        return Payload.Err(SnapshotBatchIdMismatch);
      }
      var words := ReadResultMask(s, id, c);
      MaskBack(s.resultMask, words, accepted % 256);
      r := Payload.Ok(BatchResult(batchId, accepted % 256, completed, dropped, errStatus / 256 % 2 == 1,
        errStatus / 512 % 2 == 1, errStatus % 256, Payload.MaskBits(words, accepted % 256)));
      SameResult(s, State().core);
    }

    /**
     * verify_batch, on an accelerator at rest or one that still runs a batch it gave up on. The only
     * failure after the request checks is the deadline: the batch id check always passes. Without an
     * error, bit i of the result is the verdict of an engine run on exactly job i of the request, under
     * settings c. These are the settings of the request, unless the core was still busy: then the first
     * writes to them are dropped, while the command that follows is not.
     */
    method VerifyBatch(q: Request, polls: nat, interval: nat)
        returns (r: Payload.Result<BatchResult, ServiceError>, ghost c: AxiRegs.Settings)
      requires Valid() && BusIdle(State().axi) && Usable(State()) && WellTyped(q)
      modifies regs, core, messageWords, jobWords
      ensures BusIdle(State().axi) && Usable(State())
      ensures r.Ok? ==> AtRest(Fixed(), State())
      ensures Refusal(q).Refuse? ==> r == Payload.Err(Refusal(q).error) && State() == old(State())
      ensures Refusal(q).Proceed? ==> r.Ok? || r.error == CompletionTimeout
      ensures r.Ok? ==> Refusal(q).Proceed? && r.value.batchId == (old(State()).core.batchId + 1) % TWO_32
      ensures Refusal(q).Proceed? ==> exists dropped: nat ::
        dropped <= 4 && (!old(State()).core.busy ==> dropped == 0) && c == Partly(old(State()).axi.settings, q, dropped, 4)
      ensures r.Ok? ==> ReportsUnder(judge, q, c, r.value)
      ensures r.Ok? && !old(State()).core.busy ==> Reports(judge, q, r.value)
      ensures Refusal(q).Proceed? && BatchRuns.Armed(ConfigOf(c)) && polls * (interval + 2) >= Longest(c) ==> r.Ok?
      ensures Refusal(q).Proceed? && !old(State()).core.busy && Suffices(q, polls, interval) ==> r.Ok?
    {
      hide Step, AtRest, Usable, Tracking, Done, WellTyped, SettingsOf, Partly, Reports, ReportsUnder, Launchable, OnTime, Left;
      hide Longest, BatchRuns.Armed, BatchRuns.PerJob, AcceptedJobs;
      c := State().axi.settings;
      if Refusal(q).Refuse? {
        return Payload.Err(Refusal(q).error), c;
      }
      WritePayload(q);
      ghost var dropped := WriteSettings(q);
      c := State().axi.settings;
      LongestOf(q);
      ghost var id := (State().core.batchId + 1) % TWO_32;
      BatchIdRead(State().axi, State().core);
      var before := ReadReg(AxiRegs.ADDR_BATCH_ID, id, c);
      LaunchableFits(Fixed(), c);
      StartBatch();
      var complete := PollUntilComplete(polls, interval, id, c);
      TrackingUsable(Fixed(), State(), id, c);
      if !complete {
        return Payload.Err(CompletionTimeout), c;
      }
      r := ReadResults((before + 1) % TWO_32, id, c);
      ghost var result := ResultOf(State().core);
      TrackedReport(Fixed(), State(), id, q, c, result);
      DoneAtRest(Fixed(), State(), id, c);
      RestIsUsable(Fixed(), State());
      if c == SettingsOf(q) {
        ReportsItself(judge, q, result);
      }
    }
  }

  /** What a result says about the payload of q under settings c. */
  ghost predicate ReportsUnder(judge: Judge, q: Request, c: AxiRegs.Settings, result: BatchResult) {
    var n := DispatchJobCount(ConfigOf(c));
    && JOB_WORDS * n <= 8192
    && result.accepted == |result.resultBits| == n && result.resultValid
    && (if result.error then result.errorCode == ERR_JOB_TIMEOUT && c.jobTimeoutCycles != 0
        else
          && result.errorCode == ERR_NONE
          && result.completed == n && result.completed + result.dropped == c.requestedJobCount
          && forall i :: 0 <= i < n ==> result.resultBits[i] == VerdictAt(judge, q, c, i))
  }

  /** The verdict of an engine run under settings c on record i of the memory that request q fills. */
  ghost function VerdictAt(judge: Judge, q: Request, c: AxiRegs.Settings, i: nat): bool
    requires JOB_WORDS * i + JOB_WORDS <= 8192
  {
    var message, jobs := Payload.Layout(q.message, 1024), Payload.Layout(Payload.Packed(q.jobs), 8192);
    judge(message, c.messageLength, c.verifyMode, Job(World(jobs, _ => false), i))
  }

  /** What a result says about the request it was made for. */
  ghost predicate Reports(judge: Judge, q: Request, result: BatchResult) {
    && Payload.AreJobs(q.jobs) && AcceptedJobs(q) <= |q.jobs|
    && result.accepted == |result.resultBits| == AcceptedJobs(q) && result.resultValid
    && (if result.error then result.errorCode == ERR_JOB_TIMEOUT && q.jobTimeoutCycles != 0
        else
          && result.errorCode == ERR_NONE
          && result.completed == AcceptedJobs(q) && result.completed + result.dropped == |q.jobs|
          && forall i :: 0 <= i < AcceptedJobs(q) ==> result.resultBits[i] == Verdict(judge, q, q.jobs[i]))
  }

  /** The verdict of an engine run on one job of a request. */
  ghost function Verdict(judge: Judge, q: Request, j: Payload.Job): bool {
    Payload.IsJob(j) && judge(Payload.Layout(q.message, 1024), |q.message|, RegisterBits(q.mode), Payload.RecordOf(j))
  }

  lemma LaunchableFits(u: Setup, c: AxiRegs.Settings)
    requires Launchable(c) && u.params == Deployed() && |u.memory.jobs| == 8192
    ensures Setting(Deployed(), WorldOf(u, c), ConfigOf(c))
  {
  }

  /** The result of the batch that is over, in terms of the payload and the settings it ran under. */
  lemma TrackedReport(u: Setup, x: Sys, id: nat, q: Request, c: AxiRegs.Settings, result: BatchResult)
    requires Done(u, x, id, c) && u.params == Deployed()
    requires u.memory.jobs == Payload.Layout(Payload.Packed(q.jobs), 8192)
    requires u.memory.message == Payload.Layout(q.message, 1024)
    requires x.core.snapshot.accepted <= |x.core.resultMask| && result == ResultOf(x.core)
    ensures result.batchId == id && ReportsUnder(u.judge, q, c, result)
  {
    TrackedFits(u, x, id, c);
    hide Tracking, Payload.Layout, Payload.Packed, DispatchJobCount, Setting;
    var n, none := DispatchJobCount(ConfigOf(c)), World(u.memory.jobs, _ => false);
    if !x.core.error {
      forall i | 0 <= i < n ensures x.core.resultMask[i] == VerdictAt(u.judge, q, c, i) {
        assert Job(WorldOf(u, c), i) == Job(none, i);
      }
    }
  }

  lemma TrackedFits(u: Setup, x: Sys, id: nat, c: AxiRegs.Settings)
    requires Tracking(u, x, id, c)
    ensures JOB_WORDS * DispatchJobCount(ConfigOf(c)) <= |u.memory.jobs|
    ensures DispatchJobCount(ConfigOf(c)) <= c.requestedJobCount <= MAX_JOB_COUNT
  {
    CountsFit(u.params, WorldOf(u, c), ConfigOf(c));
    hide Fresh, Over, Idle, RunsFresh, DispatchJobCount, LaunchError;
  }

  /** Under its own settings a request is reported as it was made. */
  lemma ReportsItself(judge: Judge, q: Request, result: BatchResult)
    requires WellTyped(q) && Refusal(q).Proceed? && ReportsUnder(judge, q, SettingsOf(q), result)
    ensures Reports(judge, q, result)
  {
    RequestCounts(q);
    hide Payload.Layout, Payload.Packed, DispatchJobCount, Payload.RecordOf, Job, Payload.AreJobs, Bits.Below;
    if !result.error {
      forall i | 0 <= i < AcceptedJobs(q) ensures result.resultBits[i] == Verdict(judge, q, q.jobs[i]) {
        Payload.RecordBack(q.jobs, 8192, i, _ => false);
      }
    }
  }

  lemma RequestCounts(q: Request)
    requires WellTyped(q) && Refusal(q).Proceed?
    ensures DispatchJobCount(ConfigOf(SettingsOf(q))) == AcceptedJobs(q) <= |q.jobs|
  {
    hide Payload.AreJobs, Bits.Below;
  }

  /** With a job timeout the polls span the longest that the accepted jobs can take. */
  predicate Suffices(q: Request, polls: nat, interval: nat) {
    0 < q.jobTimeoutCycles && polls * (interval + 2) >= AcceptedJobs(q) * BatchRuns.PerJob(q.jobTimeoutCycles)
  }

  lemma LongestOf(q: Request)
    requires WellTyped(q) && Refusal(q).Proceed?
    ensures Longest(SettingsOf(q)) == AcceptedJobs(q) * BatchRuns.PerJob(q.jobTimeoutCycles)
    ensures 0 < q.jobTimeoutCycles ==> BatchRuns.Armed(ConfigOf(SettingsOf(q)))
  {
    RequestCounts(q);
    hide Payload.AreJobs, Bits.Below, DispatchJobCount, AcceptedJobs, BatchRuns.PerJob;
  }

  /** A result obtained under settings that accept another number of jobs does not describe the request. */
  lemma StaleCountMisreports(judge: Judge, q: Request, c: AxiRegs.Settings, result: BatchResult)
    requires ReportsUnder(judge, q, c, result) && DispatchJobCount(ConfigOf(c)) != AcceptedJobs(q)
    ensures !Reports(judge, q, result)
  {
    hide DispatchJobCount, VerdictAt, Verdict, Payload.AreJobs;
  }

  /** Between requests: after a deadline as after a result. */
  lemma TrackingUsable(u: Setup, x: Sys, id: nat, c: AxiRegs.Settings)
    requires u.params == Deployed() && Tracking(u, x, id, c) && x.axi.pulses == AxiRegs.NoPulses()
    ensures Usable(x)
  {
    hide Fresh, Over, LaunchError, DispatchJobCount;
    if !Idle(u.params, WorldOf(u, c), x.core) {
      var b: Batch :| RunsFresh(u, c, x.core, b);
      RunsSteady(u, c, x.core, b);
    } else {
      IdleSteady(u.params, WorldOf(u, c), x.core);
    }
  }

  lemma RunsSteady(u: Setup, c: AxiRegs.Settings, s: Regs, b: Batch)
    requires RunsFresh(u, c, s, b)
    ensures BatchRuns.Steady(u.params, s)
  {
    hide Partition, MaskHolds, ShadowHolds, Counters, Job;
  }

  lemma IdleSteady(p: Params, w: World, s: Regs)
    requires Idle(p, w, s)
    ensures BatchRuns.Steady(p, s)
  {
    hide Job;
  }

  lemma DoneAtRest(u: Setup, x: Sys, id: nat, c: AxiRegs.Settings)
    requires Done(u, x, id, c) && x.axi.pulses == AxiRegs.NoPulses()
    ensures AtRest(u, x)
  {
    hide Fresh, Setting, Idle, Verdicts, RunsFresh;
    OverNotFresh(u, c, x.core);
  }

  lemma OverNotFresh(u: Setup, c: AxiRegs.Settings, s: Regs)
    requires Over(u, c, s)
    ensures forall b: Batch :: !RunsFresh(u, c, s, b)
  {
    hide Verdicts, Partition, MaskHolds, ShadowHolds, SlotHolds, Counters;
  }

  lemma BatchIdRead(a: AxiRegs.Axi, s: Regs)
    ensures AxiRegs.ReadWord(a, s, AxiRegs.ADDR_BATCH_ID) == s.batchId
  {
  }

  /** The batch is over and tracked: no pulse is left. */
  ghost predicate Done(u: Setup, x: Sys, id: nat, c: AxiRegs.Settings) {
    Tracking(u, x, id, c) && !x.axi.pulses.start && Over(u, c, x.core) && x.core.batchId == id
  }

  /** A status word read while tracking shows done or error only once the batch is over. */
  lemma DoneWhenShown(u: Setup, x: Sys, y: Sys, id: nat, c: AxiRegs.Settings)
    requires Tracking(u, x, id, c) && Tracking(u, y, id, c)
    requires !x.axi.pulses.start && !x.core.running ==> SameResults(x.core, y.core) && !y.axi.pulses.start
    ensures var bits := StatusBits(AxiRegs.ReadWord(x.axi, x.core, AxiRegs.ADDR_STATUS));
      bits.1 || bits.2 ==> Done(u, y, id, c)
  {
    hide AxiRegs.StatusWord, AxiRegs.MaskWord, StatusBits, RunsFresh, Over, Setting;
    StatusDecodes(x.axi, x.core);
    if (x.core.done || x.core.error) && !x.axi.pulses.statusClearHold {
      NoPulse(x, id);
      if !Over(u, c, x.core) {
        var b :| RunsFresh(u, c, x.core, b);
        RunningNotDone(u, c, x.core, b);
      }
      OverIdle(u, c, x.core);
      OverStays(u, c, x.core, y.core);
    }
  }

  lemma NoPulse(x: Sys, id: nat)
    requires Fresh(x, id) && !x.axi.pulses.statusClearHold
    ensures !x.axi.pulses.start && x.core.batchId == id
  {
  }

  lemma RunningNotDone(u: Setup, c: AxiRegs.Settings, s: Regs, b: Batch)
    requires RunsFresh(u, c, s, b)
    ensures !s.done && !s.error
  {
  }

  lemma OverIdle(u: Setup, c: AxiRegs.Settings, s: Regs)
    requires Over(u, c, s)
    ensures !s.running && |s.resultMask| == MASK_BITS
  {
    hide Verdicts;
  }

  predicate IsResult(addr: nat) {
    || (addr % 4 == 0 && AxiRegs.ADDR_RESULT_MASK_WORD0 <= addr < AxiRegs.ADDR_ERROR_CODE)
    || addr == AxiRegs.ADDR_SNAPSHOT_BATCH_ID || addr == AxiRegs.ADDR_SNAPSHOT_ACCEPTED
    || addr == AxiRegs.ADDR_SNAPSHOT_COMPLETED || addr == AxiRegs.ADDR_SNAPSHOT_DROPPED
    || addr == AxiRegs.ADDR_SNAPSHOT_ERR_STATUS
  }

  /** What a result register reads, which depends on the core alone. */
  function ResultWord(s: Regs, addr: nat): nat {
    AxiRegs.ReadWord(AxiRegs.Reset(), s, addr)
  }

  lemma ResultReads(a: AxiRegs.Axi, s: Regs, t: Regs, addr: nat)
    requires SameResults(s, t) && IsResult(addr)
    ensures AxiRegs.ReadWord(a, t, addr) == ResultWord(s, addr)
  {
    hide AxiRegs.MaskWord, AxiRegs.StatusWord;
  }

  lemma MaskRead(s: Regs, index: nat)
    requires index < 8 && |s.resultMask| == MASK_BITS
    ensures IsResult(AxiRegs.ADDR_RESULT_MASK_WORD0 + 4 * index)
    ensures ResultWord(s, AxiRegs.ADDR_RESULT_MASK_WORD0 + 4 * index) == AxiRegs.MaskWord(s.resultMask, index)
  {
    hide AxiRegs.MaskWord, AxiRegs.StatusWord;
  }

  lemma StillDone(u: Setup, s: Regs, x: Sys, y: Sys, id: nat, c: AxiRegs.Settings)
    requires Done(u, x, id, c) && SameResults(s, x.core) && Tracking(u, y, id, c)
    requires !x.axi.pulses.start && !x.core.running ==> SameResults(x.core, y.core) && !y.axi.pulses.start
    ensures Done(u, y, id, c) && SameResults(s, y.core)
  {
    hide Tracking, Over;
    OverIdle(u, c, x.core);
    OverStays(u, c, x.core, y.core);
    SameTwice(s, x.core, y.core);
  }

  lemma SameSelf(s: Regs)
    ensures !s.running ==> SameResults(s, s)
  {
  }

  /** What the daemon reports about a batch: its snapshot, and the mask bits of the accepted jobs. */
  function ResultOf(s: Regs): BatchResult
    requires s.snapshot.accepted <= |s.resultMask|
  {
    BatchResult(s.snapshot.batchId, s.snapshot.accepted, s.snapshot.completed, s.snapshot.dropped,
      s.snapshot.error, s.snapshot.resultValid, s.snapshot.errorCode, s.resultMask[..s.snapshot.accepted])
  }

  lemma SameResult(s: Regs, t: Regs)
    requires SameResults(s, t) && s.snapshot.accepted <= |s.resultMask|
    ensures t.snapshot.accepted <= |t.resultMask| && ResultOf(s) == ResultOf(t) && t.snapshot == s.snapshot
  {
  }

  /** The snapshot registers of a batch that is over, as the daemon decodes them. */
  lemma SnapshotReads(u: Setup, c: AxiRegs.Settings, s: Regs)
    requires Over(u, c, s) && c.requestedJobCount <= MAX_JOB_COUNT
    ensures !s.running && |s.resultMask| == MASK_BITS && s.snapshot.accepted < TWO_8 && s.snapshot.errorCode < TWO_8
    ensures IsResult(AxiRegs.ADDR_SNAPSHOT_ERR_STATUS) && IsResult(AxiRegs.ADDR_SNAPSHOT_BATCH_ID)
    ensures IsResult(AxiRegs.ADDR_SNAPSHOT_ACCEPTED)
    ensures IsResult(AxiRegs.ADDR_SNAPSHOT_COMPLETED) && IsResult(AxiRegs.ADDR_SNAPSHOT_DROPPED)
    ensures ResultWord(s, AxiRegs.ADDR_SNAPSHOT_BATCH_ID) == s.snapshot.batchId
    ensures ResultWord(s, AxiRegs.ADDR_SNAPSHOT_ACCEPTED) == s.snapshot.accepted
    ensures ResultWord(s, AxiRegs.ADDR_SNAPSHOT_COMPLETED) == s.snapshot.completed
    ensures ResultWord(s, AxiRegs.ADDR_SNAPSHOT_DROPPED) == s.snapshot.dropped
    ensures var e := ResultWord(s, AxiRegs.ADDR_SNAPSHOT_ERR_STATUS);
      e % 256 == s.snapshot.errorCode && (e / 256 % 2 == 1) == s.snapshot.error && (e / 512 % 2 == 1) == s.snapshot.resultValid
  {
    assert DispatchJobCount(ConfigOf(c)) <= c.requestedJobCount;
    hide AxiRegs.MaskWord, AxiRegs.StatusWord, Verdicts, DispatchJobCount;
  }

  lemma MaskBack(mask: seq<bool>, words: seq<nat>, count: nat)
    requires |mask| == MASK_BITS && |words| == 8 && count <= MASK_BITS
    requires forall k :: 0 <= k < 8 ==> words[k] == AxiRegs.MaskWord(mask, k)
    ensures Payload.MaskBits(words, count) == mask[..count]
  {
    hide Payload.MaskBit, Bits.Value;
    forall i | 0 <= i < count ensures Payload.MaskBit(words, i) == mask[i] {
      assert words[i / 32] == AxiRegs.MaskWord(mask, i / 32);
      Payload.MaskBitBack(mask, words, i);
    }
  }

  lemma UsableIdle(x: Sys)
    ensures Usable(x) ==> WriteIdle(x.axi)
  {
  }

  lemma BusyLaunchable(x: Sys)
    requires Usable(x)
    ensures x.core.busy ==> Launchable(x.axi.settings)
  {
  }

  lemma PartlyNone(c: AxiRegs.Settings, q: Request)
    ensures Partly(c, q, 0, 0) == c
  {
  }

  lemma SilentTwice(u: Setup, x: Sys, t1: Tick, t2: Tick)
    requires WriteIdle(x.axi) && Silent(t1) && Silent(t2)
    ensures Step(u, Step(u, x, t1), t2).axi.pulses == AxiRegs.NoPulses()
  {
    hide Step;
    SilentStep(u, x, t1);
    SilentStep(u, Step(u, x, t1), t2);
  }

  lemma TrackingIdle(u: Setup, x: Sys, id: nat, c: AxiRegs.Settings)
    ensures Tracking(u, x, id, c) ==> WriteIdle(x.axi)
  {
  }

  lemma SameTwice(r: Regs, s: Regs, t: Regs)
    requires SameResults(r, s) && SameResults(s, t)
    ensures SameResults(r, t)
  {
  }

  lemma TrackingTwice(u: Setup, x: Sys, t1: Tick, t2: Tick, id: nat, c: AxiRegs.Settings)
    requires Tracking(u, x, id, c) && Silent(t1) && Silent(t2)
    ensures var y := Step(u, Step(u, x, t1), t2);
      && Tracking(u, y, id, c)
      && (!x.axi.pulses.start && !x.core.running ==> SameResults(x.core, y.core) && !y.axi.pulses.start)
  {
    hide Step, Tracking;
    var m := Step(u, x, t1);
    TrackingIdle(u, x, id, c);
    TrackingIdle(u, m, id, c);
    SilentStep(u, x, t1);
    TrackingStep(u, x, t1, id, c);
    SilentStep(u, m, t2);
    TrackingStep(u, m, t2, id, c);
  }
}
