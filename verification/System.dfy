/**
 * The register block and the batch core clocked together: which batch a status read belongs to, and
 * which configuration a batch runs under, whatever else happens on the bus.
 */
module System {
  import opened BatchSpec
  import opened BatchInvariant
  import AxiRegs
  import BatchRuns

  datatype Sys = Sys(axi: AxiRegs.Axi, core: Regs)

  /** One cycle from outside: the bus, and whether a working engine ends. */
  datatype Tick = Tick(bus: AxiRegs.Bus, finish0: bool, finish1: bool)

  /** The two memories, in 32-bit words. */
  datatype Memory = Memory(jobs: seq<nat>, message: seq<nat>)

  /** The verdict of an engine run: message words, message length, mode and record. */
  type Judge = (seq<nat>, nat, nat, Record) -> bool

  /** What stays the same while the system runs. */
  datatype Setup = Setup(params: Params, memory: Memory, judge: Judge)

  function ConfigOf(c: AxiRegs.Settings): Config {
    Config(c.messageLength, c.requestedJobCount, c.dispatchLimit, c.jobTimeoutCycles)
  }

  function WorldOf(u: Setup, c: AxiRegs.Settings): World {
    World(u.memory.jobs, r => u.judge(u.memory.message, c.messageLength, c.verifyMode, r))
  }

  function InputOf(x: Sys, t: Tick): Input {
    Input(x.axi.pulses.start, x.axi.pulses.softReset, ConfigOf(x.axi.settings), t.finish0, t.finish1)
  }

  function Step(u: Setup, x: Sys, t: Tick): Sys {
    Sys(AxiRegs.Clocked(x.axi, t.bus, x.core), Next(u.params, x.core, InputOf(x, t), WorldOf(u, x.axi.settings)))
  }

  function Run(u: Setup, x: Sys, ticks: seq<Tick>): Sys
    decreases |ticks|
  {
    if ticks == [] then x else Run(u, Step(u, x, ticks[0]), ticks[1..])
  }

  // ----- command pulses -----

  /** A pulse comes with a response still waiting, and with the stale status masked. */
  ghost predicate Pulsed(a: AxiRegs.Axi) {
    && (a.pulses.start || a.pulses.softReset ==> a.w.bvalid && a.pulses.statusClearHold)
    && a.pulses.launchPending == a.pulses.start
  }

  /** It does after every cycle, whatever came before. */
  lemma PulsedAlways(a: AxiRegs.Axi, b: AxiRegs.Bus, s: Regs)
    ensures Pulsed(AxiRegs.Clocked(a, b, s))
  {
    hide AxiRegs.Clocked, AxiRegs.Commits, AxiRegs.Command, AxiRegs.Collect, AxiRegs.Answer, AxiRegs.Configure;
    AxiRegs.ClockedFacts(a, b, s);
    AxiRegs.LowBits(AxiRegs.Command(AxiRegs.Committed(a.w, b)));
  }

  // ----- the configuration lock -----

  /** From the launch pulse on, and as long as the core is busy, no write changes the configuration. */
  lemma SettingsLocked(u: Setup, x: Sys, t: Tick)
    requires Pulsed(x.axi) && (x.axi.pulses.start || x.core.busy)
    ensures Step(u, x, t).axi.settings == x.axi.settings
  {
    hide AxiRegs.Clocked, AxiRegs.Command, Next, AxiRegs.Collect, AxiRegs.Answer, AxiRegs.Configure;
    AxiRegs.ClockedFacts(x.axi, t.bus, x.core);
  }

  ghost predicate InBatch(x: Sys) {
    x.axi.pulses.start || x.core.busy
  }

  /** Every state before the end of the window is in the batch. */
  ghost predicate Throughout(u: Setup, x: Sys, ticks: seq<Tick>)
    decreases |ticks|
  {
    ticks == [] || (InBatch(x) && Throughout(u, Step(u, x, ticks[0]), ticks[1..]))
  }

  lemma {:induction false} SettingsHeld(u: Setup, x: Sys, ticks: seq<Tick>)
    requires Pulsed(x.axi) && Throughout(u, x, ticks)
    ensures Run(u, x, ticks).axi.settings == x.axi.settings
    decreases |ticks|
  {
    hide Step;
    if ticks != [] {
      SettingsLocked(u, x, ticks[0]);
      StepPulsed(u, x, ticks[0]);
      SettingsHeld(u, Step(u, x, ticks[0]), ticks[1..]);
    }
  }

  lemma StepPulsed(u: Setup, x: Sys, t: Tick)
    ensures Pulsed(Step(u, x, t).axi)
  {
    hide Next, AxiRegs.Clocked;
    PulsedAlways(x.axi, t.bus, x.core);
  }

  // ----- freshness -----

  /** A command write commits in this cycle. */
  ghost predicate Commands(x: Sys, t: Tick) {
    AxiRegs.Commits(x.axi.w, t.bus) && AxiRegs.IsCommand(AxiRegs.Committed(x.axi.w, t.bus))
  }

  ghost predicate Quiet(u: Setup, x: Sys, ticks: seq<Tick>)
    decreases |ticks|
  {
    ticks == [] || (!Commands(x, ticks[0]) && Quiet(u, Step(u, x, ticks[0]), ticks[1..]))
  }

  /** The core works on batch id, or has ended it and shows its snapshot. */
  ghost predicate CoreAt(s: Regs, id: nat) {
    && s.batchId == id
    && (if s.running then !s.done && !s.error else s.done || s.error ==> s.snapshot.batchId == id)
  }

  /** A reset-then-start command has been committed: its pulse is on its way to the core, or batch id is there. */
  ghost predicate Fresh(x: Sys, id: nat) {
    && Pulsed(x.axi)
    && (if x.axi.pulses.start then x.axi.pulses.softReset && (x.core.batchId + 1) % TWO_32 == id
        else !x.axi.pulses.softReset && CoreAt(x.core, id))
  }

  /** The command is fresh in the cycle after it commits. */
  lemma CommandIsFresh(u: Setup, x: Sys, t: Tick)
    requires AxiRegs.Commits(x.axi.w, t.bus) && !x.axi.pulses.start && !x.axi.pulses.softReset
    requires var w := AxiRegs.Committed(x.axi.w, t.bus); w.addr / 4 * 4 == AxiRegs.ADDR_CONTROL && AxiRegs.Command(w) % 4 == 3
    ensures Fresh(Step(u, x, t), (x.core.batchId + 1) % TWO_32)
  {
    hide AxiRegs.Clocked, AxiRegs.Command, Next, AxiRegs.Collect, AxiRegs.Answer, AxiRegs.Configure;
    StepPulsed(u, x, t);
    CorePlods(u, x, t);
    AxiRegs.LowBits(AxiRegs.Command(AxiRegs.Committed(x.axi.w, t.bus)));
    AxiRegs.ClockedFacts(x.axi, t.bus, x.core);
  }

  /** Without a pulse the core keeps its batch id; once ended, it also keeps everything a client reads. */
  lemma CorePlods(u: Setup, x: Sys, t: Tick)
    requires !x.axi.pulses.start && !x.axi.pulses.softReset
    ensures var s, n := x.core, Step(u, x, t).core;
      && n.batchId == s.batchId
      && (forall id: nat {:trigger CoreAt(s, id)} :: CoreAt(s, id) ==> CoreAt(n, id))
      && (!s.running ==> SameResults(s, n))
  {
    hide AxiRegs.Clocked, LoaderCycle, UnitNext, MaskNext, StartNextLoad, Timeout, Event0, Event1, Fill, Free, Count;
    var i, w := InputOf(x, t), WorldOf(u, x.axi.settings);
    if x.core.running {
      StartKeeps(x.core, Settled(u.params, x.core, i, w).(slot0 := Fill(Settled(u.params, x.core, i, w).slot0, x.core)));
      StartKeeps(x.core, Settled(u.params, x.core, i, w).(slot1 := Fill(Settled(u.params, x.core, i, w).slot1, x.core)));
    }
  }

  lemma StartKeeps(s: Regs, t: Regs)
    ensures var n := StartNextLoad(s, t);
      n.batchId == t.batchId && n.running == t.running && n.done == t.done && n.error == t.error && n.snapshot == t.snapshot
  {
    hide KickLoader;
    if s.nextLoadJobIndex < s.scheduled {
    }
  }

  /** Everything the client reads after completion. */
  predicate SameResults(s: Regs, n: Regs) {
    && !n.running && n.busy == s.busy && n.done == s.done && n.error == s.error && n.resultValid == s.resultValid
    && n.errorCode == s.errorCode && n.resultMask == s.resultMask && n.accepted == s.accepted
    && n.batchId == s.batchId && n.snapshot == s.snapshot
    && n.jobsCompleted == s.jobsCompleted && n.jobsDropped == s.jobsDropped
  }

  /** A fresh state stays fresh in every cycle without another command. */
  lemma FreshStep(u: Setup, x: Sys, t: Tick, id: nat)
    requires Fresh(x, id) && !Commands(x, t)
    ensures Fresh(Step(u, x, t), id)
  {
    hide AxiRegs.Clocked, AxiRegs.Command, Next, AxiRegs.Collect, AxiRegs.Answer, AxiRegs.Configure, AxiRegs.Commits;
    StepPulsed(u, x, t);
    AxiRegs.LowBits(AxiRegs.Command(AxiRegs.Committed(x.axi.w, t.bus)));
    AxiRegs.ClockedFacts(x.axi, t.bus, x.core);
    if x.axi.pulses.start {
      LaunchIsAt(u, x, t);
    } else {
      CorePlods(u, x, t);
      assert CoreAt(x.core, id);
    }
  }

  /** The launch itself gives the core the next id, accepted or rejected. */
  lemma LaunchIsAt(u: Setup, x: Sys, t: Tick)
    requires x.axi.pulses.start && x.axi.pulses.softReset
    ensures CoreAt(Step(u, x, t).core, (x.core.batchId + 1) % TWO_32)
  {
    hide AxiRegs.Clocked, LaunchError, DispatchJobCount, UnitNext;
    var i := InputOf(x, t);
    if LaunchError(u.params, i.config) != ERR_NONE {
    } else {
    }
  }

  lemma {:induction false} FreshForever(u: Setup, x: Sys, ticks: seq<Tick>, id: nat)
    requires Fresh(x, id) && Quiet(u, x, ticks)
    ensures Fresh(Run(u, x, ticks), id)
    decreases |ticks|
  {
    hide Step, Fresh, Commands;
    if ticks != [] {
      FreshStep(u, x, ticks[0], id);
      FreshForever(u, Step(u, x, ticks[0]), ticks[1..], id);
    }
  }

  /** Bits of the status word. */
  function StatusBits(word: nat): (bool, bool, bool) {
    (word % 2 == 1, word / 2 % 2 == 1, word / 4 % 2 == 1)
  }

  lemma StatusDecodes(a: AxiRegs.Axi, s: Regs)
    ensures StatusBits(AxiRegs.StatusWord(a, s)) ==
      (s.busy || a.pulses.launchPending, s.done && !a.pulses.statusClearHold, s.error && !a.pulses.statusClearHold)
  {
  }

  /**
   * After a reset-then-start command commits, whatever the bus and the engines do until the next
   * command, a status word that shows done or error belongs to the batch of that command, and the
   * snapshot already carries its id.
   */
  lemma StatusIsFresh(u: Setup, x: Sys, t: Tick, ticks: seq<Tick>)
    requires AxiRegs.Commits(x.axi.w, t.bus) && !x.axi.pulses.start && !x.axi.pulses.softReset
    requires var w := AxiRegs.Committed(x.axi.w, t.bus); w.addr / 4 * 4 == AxiRegs.ADDR_CONTROL && AxiRegs.Command(w) % 4 == 3
    requires Quiet(u, Step(u, x, t), ticks)
    ensures var y := Run(u, Step(u, x, t), ticks);
      var bits := StatusBits(AxiRegs.ReadWord(y.axi, y.core, AxiRegs.ADDR_STATUS));
      bits.1 || bits.2 ==>
        && y.core.batchId == (x.core.batchId + 1) % TWO_32
        && AxiRegs.ReadWord(y.axi, y.core, AxiRegs.ADDR_SNAPSHOT_BATCH_ID) == (x.core.batchId + 1) % TWO_32
  {
    hide Step, Run, AxiRegs.Command, AxiRegs.StatusWord, AxiRegs.MaskWord, Commands, StatusBits;
    CommandIsFresh(u, x, t);
    FreshForever(u, Step(u, x, t), ticks, (x.core.batchId + 1) % TWO_32);
    var y := Run(u, Step(u, x, t), ticks);
    StatusDecodes(y.axi, y.core);
  }

  // ----- a batch run over the bus -----

  /** A command write with the reset bit commits in this cycle. */
  ghost predicate Resets(x: Sys, t: Tick) {
    && AxiRegs.Commits(x.axi.w, t.bus)
    && var w := AxiRegs.Committed(x.axi.w, t.bus);
    w.addr / 4 * 4 == AxiRegs.ADDR_CONTROL && AxiRegs.Command(w) / 2 % 2 == 1
  }

  ghost predicate NeverResets(u: Setup, x: Sys, ticks: seq<Tick>)
    decreases |ticks|
  {
    ticks == [] || (!Resets(x, ticks[0]) && NeverResets(u, Step(u, x, ticks[0]), ticks[1..]))
  }

  lemma NoResetPulse(u: Setup, x: Sys, t: Tick)
    requires !Resets(x, t)
    ensures !Step(u, x, t).axi.pulses.softReset
  {
    hide AxiRegs.Clocked, AxiRegs.Command, Next, AxiRegs.Collect, AxiRegs.Answer, AxiRegs.Configure, AxiRegs.Commits;
    AxiRegs.ClockedFacts(x.axi, t.bus, x.core);
  }

  /** The system is running batch b under its held configuration. */
  ghost predicate SystemRuns(u: Setup, x: Sys, b: Batch) {
    && Pulsed(x.axi) && !x.axi.pulses.softReset
    && b.config == ConfigOf(x.axi.settings)
    && Running(u.params, WorldOf(u, x.axi.settings), x.core, b)
    && BatchRuns.Ticking(x.core, b.config.jobTimeoutCycles)
  }

  /** The system still runs the batch, or has just ended it. */
  lemma SystemKeeps(u: Setup, x: Sys, t: Tick, b: Batch)
    requires SystemRuns(u, x, b) && !Resets(x, t)
    requires Setting(u.params, WorldOf(u, x.axi.settings), b.config) && BatchRuns.Armed(b.config)
    ensures var y, e, timeout := Step(u, x, t), After(u.params, x.core, b), b.config.jobTimeoutCycles;
      && y.axi.settings == x.axi.settings && y.core.batchId == x.core.batchId
      && (if y.core.running then SystemRuns(u, y, e) && y.core.accepted == x.core.accepted
            && BatchRuns.Potential(y.core, timeout) < BatchRuns.Potential(x.core, timeout)
          else Ended(u.params, WorldOf(u, x.axi.settings), x.core, y.core, e))
  {
    hide Next, AxiRegs.Clocked, Running, Setting, Ended, BatchRuns.Potential, BatchRuns.Ticking, LaunchError;
    var w := WorldOf(u, x.axi.settings);
    BusyRunning(u.params, w, x.core, b);
    SettingsLocked(u, x, t);
    StepPulsed(u, x, t);
    NoResetPulse(u, x, t);
    RunKeeps(u.params, w, x.core, InputOf(x, t), b);
    BatchRuns.PotentialFalls(u.params, w, x.core, InputOf(x, t), b);
    if !Step(u, x, t).core.running {
      BatchRuns.EndedId(u.params, w, x.core, Step(u, x, t).core, After(u.params, x.core, b));
    }
  }

  lemma BusyRunning(p: Params, w: World, s: Regs, b: Batch)
    requires Running(p, w, s, b)
    ensures s.busy && s.running
  {
  }

  lemma {:induction false} SystemEnds(u: Setup, x: Sys, ticks: seq<Tick>, b: Batch) returns (k: nat, e: Batch)
    requires SystemRuns(u, x, b) && NeverResets(u, x, ticks)
    requires Setting(u.params, WorldOf(u, x.axi.settings), b.config) && BatchRuns.Armed(b.config)
    requires |ticks| >= BatchRuns.Potential(x.core, b.config.jobTimeoutCycles)
    ensures 1 <= k <= BatchRuns.Potential(x.core, b.config.jobTimeoutCycles) && e == b.(finished := e.finished)
    ensures var y := Run(u, x, ticks[..k]);
      && Ended(u.params, WorldOf(u, x.axi.settings), x.core, y.core, e)
      && y.axi.settings == x.axi.settings
    decreases BatchRuns.Potential(x.core, b.config.jobTimeoutCycles)
  {
    hide Step, Running, Ended, BatchRuns.Potential, BatchRuns.Ticking, Setting, Pulsed;
    var w, timeout := WorldOf(u, x.axi.settings), b.config.jobTimeoutCycles;
    BatchRuns.PotentialPositive(u.params, w, x.core, b, timeout);
    SystemKeeps(u, x, ticks[0], b);
    var y, e0 := Step(u, x, ticks[0]), After(u.params, x.core, b);
    if y.core.running {
      k, e := SystemEnds(u, y, ticks[1..], e0);
      k := k + 1;
      assert ticks[..k][1..] == ticks[1..][..k - 1];
      BatchRuns.SameEnd(u.params, w, x.core, y.core, Run(u, x, ticks[..k]).core, e);
    } else {
      k, e := 1, e0;
      assert ticks[..1][1..] == [];
    }
  }

  /**
   * A launch pulse with an acceptable configuration and a nonzero timeout ends in done, within one
   * cycle and one share per accepted job, under the configuration it was launched with; everything
   * else on the bus is allowed except another reset.
   */
  lemma LaunchRunsToDone(u: Setup, x: Sys, ticks: seq<Tick>) returns (k: nat, e: Batch)
    requires Pulsed(x.axi) && x.axi.pulses.start
    requires var c := ConfigOf(x.axi.settings);
      && Setting(u.params, WorldOf(u, x.axi.settings), c) && BatchRuns.Armed(c)
      && |ticks| >= 1 + DispatchJobCount(c) * BatchRuns.PerJob(c.jobTimeoutCycles)
    requires if x.axi.pulses.softReset then (u.params.engines <= 1 ==> x.core.unit1.Resting? && !x.core.slot1.startPulse)
      else Idle(u.params, WorldOf(u, x.axi.settings), x.core)
    requires NeverResets(u, x, ticks)
    ensures var c := ConfigOf(x.axi.settings);
      && 1 < k <= 1 + DispatchJobCount(c) * BatchRuns.PerJob(c.jobTimeoutCycles)
      && e == Begin(x.core, c, x.axi.pulses.softReset).(finished := e.finished)
    ensures var y := Run(u, x, ticks[..k]);
      && y.axi.settings == x.axi.settings && y.core.batchId == (x.core.batchId + 1) % TWO_32
      && Ended(u.params, WorldOf(u, x.axi.settings), Step(u, x, ticks[0]).core, y.core, e)
  {
    hide Next, AxiRegs.Clocked, Running, Ended, BatchRuns.Potential, BatchRuns.Ticking, BatchRuns.PerJob;
    hide DispatchJobCount, LaunchError, Idle;
    var i, c, w := InputOf(x, ticks[0]), ConfigOf(x.axi.settings), WorldOf(u, x.axi.settings);
    var y := Step(u, x, ticks[0]);
    if i.softReset {
      BatchRuns.ResetLaunch(u.params, w, x.core, i);
    } else {
      BatchRuns.IdleLaunch(u.params, w, x.core, i);
    }
    IdleNotRunning(u.params, w, x.core);
    BatchRuns.FirstPotential(u.params, w, x.core, i, c);
    SettingsLocked(u, x, ticks[0]);
    StepPulsed(u, x, ticks[0]);
    NoResetPulse(u, x, ticks[0]);
    k, e := SystemEnds(u, y, ticks[1..], Begin(x.core, c, i.softReset));
    k := k + 1;
    assert ticks[..k][1..] == ticks[1..][..k - 1];
    BatchRuns.EndedId(u.params, w, y.core, Run(u, x, ticks[..k]).core, e);
  }

  lemma IdleNotRunning(p: Params, w: World, s: Regs)
    ensures Idle(p, w, s) ==> !s.running
  {
  }

  // ----- every reachable state -----

  /** A client's view of a sane core: what runs does so under the settings in the registers. */
  ghost predicate SaneSystem(u: Setup, x: Sys) {
    Pulsed(x.axi) && BatchRuns.Sane(u.params, WorldOf(u, x.axi.settings), x.core, ConfigOf(x.axi.settings))
  }

  function ResetSys(): Sys {
    Sys(AxiRegs.Reset(), ResetRegs())
  }

  lemma ResetIsSane(u: Setup)
    ensures SaneSystem(u, ResetSys())
  {
    ResetIdle(u.params, WorldOf(u, AxiRegs.Reset().settings));
    hide Idle;
  }

  /** Any cycle keeps it: the lock holds the settings whenever something runs or is about to. */
  lemma SaneStep(u: Setup, x: Sys, t: Tick)
    requires BatchRuns.MemoryFits(u.params, WorldOf(u, x.axi.settings)) && SaneSystem(u, x)
    ensures SaneSystem(u, Step(u, x, t))
  {
    hide Next, AxiRegs.Clocked, BatchRuns.Sane, Idle, BatchRuns.OneEngine, BatchRuns.MemoryFits;
    var w := WorldOf(u, x.axi.settings);
    StepPulsed(u, x, t);
    BatchRuns.SaneOneEngine(u.params, w, x.core, ConfigOf(x.axi.settings));
    if InBatch(x) {
      SettingsLocked(u, x, t);
      BatchRuns.SaneStays(u.params, w, x.core, InputOf(x, t));
    } else {
      var v := WorldOf(u, Step(u, x, t).axi.settings);
      if x.axi.pulses.softReset {
        BatchRuns.ResetOnlyIdles(u.params, w, v, x.core, InputOf(x, t));
      } else {
        BatchRuns.IdleStays(u.params, w, v, x.core, InputOf(x, t));
      }
      IdleIsSane(u.params, v, Step(u, x, t).core, ConfigOf(Step(u, x, t).axi.settings));
    }
  }

  lemma IdleIsSane(p: Params, w: World, s: Regs, c: Config)
    requires Idle(p, w, s)
    ensures BatchRuns.Sane(p, w, s, c)
  {
    hide Idle;
  }

  lemma {:induction false} SaneAlways(u: Setup, x: Sys, ticks: seq<Tick>)
    requires u.params.jobRamDepth <= 4 * |u.memory.jobs| && SaneSystem(u, x)
    ensures SaneSystem(u, Run(u, x, ticks))
    decreases |ticks|
  {
    hide Step, SaneSystem;
    if ticks != [] {
      SaneStep(u, x, ticks[0]);
      SaneAlways(u, Step(u, x, ticks[0]), ticks[1..]);
    }
  }

  /**
   * From reset, under any traffic on the bus, with any commands, resets and engine behaviour: whenever
   * a batch runs, the indices below next_load_job_index are split into finished, engine 0, engine 1 and
   * loading-or-shadow, the finished ones having their verdict in the mask and all other bits being 0; a
   * valid shadow record excludes a busy loader; and the settings tell how many jobs are accepted.
   */
  lemma SplitInEveryReachableState(u: Setup, ticks: seq<Tick>) returns (finished: set<nat>)
    requires u.params.jobRamDepth <= 4 * |u.memory.jobs|
    ensures var y := Run(u, ResetSys(), ticks);
      y.core.running ==>
        && Partition(y.core, finished) && |finished| == y.core.batchCompleted < y.core.accepted
        && MaskHolds(WorldOf(u, y.axi.settings), y.core.resultMask, finished)
        && !(y.core.load.valid && Loading(y.core.load))
        && y.core.accepted == DispatchJobCount(ConfigOf(y.axi.settings)) <= y.axi.settings.requestedJobCount
  {
    ResetIsSane(u);
    SaneAlways(u, ResetSys(), ticks);
    var y := Run(u, ResetSys(), ticks);
    finished := {};
    if y.core.running {
      finished := SplitOf(u.params, WorldOf(u, y.axi.settings), y.core, ConfigOf(y.axi.settings));
    }
  }

  lemma SplitOf(p: Params, w: World, s: Regs, c: Config) returns (finished: set<nat>)
    requires BatchRuns.Sane(p, w, s, c) && s.running
    ensures Partition(s, finished) && MaskHolds(w, s.resultMask, finished) && !(s.load.valid && Loading(s.load))
    ensures |finished| == s.batchCompleted < s.accepted == DispatchJobCount(c) <= c.requestedJobCount
  {
    hide Partition, Loaded, MaskHolds, SlotHolds, Job, DispatchJobCount, LaunchError;
    var b: Batch :| b.config == c && Running(p, w, s, b);
    finished := b.finished;
    AcceptedFits(p, w, c);
  }

  lemma AcceptedFits(p: Params, w: World, c: Config)
    requires Setting(p, w, c)
    ensures DispatchJobCount(c) <= c.requestedJobCount
  {
  }

  // ----- conservation while a batch runs -----

  /** The batch is running in every state before the last. */
  ghost predicate RunsThroughout(u: Setup, x: Sys, ticks: seq<Tick>)
    decreases |ticks|
  {
    ticks == [] || (x.core.running && RunsThroughout(u, Step(u, x, ticks[0]), ticks[1..]))
  }

  /** The counters of a running batch stand, whatever the bus does short of a reset. */
  lemma {:induction false} CountersHold(u: Setup, x: Sys, ticks: seq<Tick>, b: Batch) returns (e: Batch)
    requires Pulsed(x.axi) && !x.axi.pulses.softReset && b.config == ConfigOf(x.axi.settings)
    requires Running(u.params, WorldOf(u, x.axi.settings), x.core, b)
    requires Setting(u.params, WorldOf(u, x.axi.settings), b.config) && NeverResets(u, x, ticks) && RunsThroughout(u, x, ticks)
    requires Run(u, x, ticks).core.running
    ensures e == b.(finished := e.finished) && Run(u, x, ticks).axi.settings == x.axi.settings
    ensures Running(u.params, WorldOf(u, x.axi.settings), Run(u, x, ticks).core, e)
    decreases |ticks|
  {
    hide Step, Running, Setting, Pulsed, Resets;
    e := b;
    if ticks != [] {
      var y := Step(u, x, ticks[0]);
      StillRuns(u, x, ticks, b);
      e := CountersHold(u, y, ticks[1..], After(u.params, x.core, b));
    }
  }

  lemma StillRuns(u: Setup, x: Sys, ticks: seq<Tick>, b: Batch)
    requires ticks != [] && Pulsed(x.axi) && !x.axi.pulses.softReset && b.config == ConfigOf(x.axi.settings)
    requires Running(u.params, WorldOf(u, x.axi.settings), x.core, b)
    requires Setting(u.params, WorldOf(u, x.axi.settings), b.config) && !Resets(x, ticks[0])
    requires RunsThroughout(u, x, ticks) && Run(u, x, ticks).core.running
    ensures var y := Step(u, x, ticks[0]);
      && Pulsed(y.axi) && !y.axi.pulses.softReset && y.axi.settings == x.axi.settings && y.core.running
      && Running(u.params, WorldOf(u, x.axi.settings), y.core, After(u.params, x.core, b))
  {
    hide Next, AxiRegs.Clocked, Running, Setting, Ended, Resets;
    var w := WorldOf(u, x.axi.settings);
    BusyRunning(u.params, w, x.core, b);
    SettingsLocked(u, x, ticks[0]);
    StepPulsed(u, x, ticks[0]);
    NoResetPulse(u, x, ticks[0]);
    RunKeeps(u.params, w, x.core, InputOf(x, ticks[0]), b);
    assert Run(u, x, ticks) == Run(u, Step(u, x, ticks[0]), ticks[1..]);
  }

  /**
   * From an accepted launch to any later state of the same batch: the jobs dropped since the launch and
   * the accepted ones are together the jobs requested, and the completed ones since then are finished.
   */
  lemma AcceptedAndDropped(u: Setup, x: Sys, ticks: seq<Tick>) returns (finished: set<nat>)
    requires Pulsed(x.axi) && x.axi.pulses.start && ticks != []
    requires Setting(u.params, WorldOf(u, x.axi.settings), ConfigOf(x.axi.settings))
    requires if x.axi.pulses.softReset then (u.params.engines <= 1 ==> x.core.unit1.Resting? && !x.core.slot1.startPulse)
      else Idle(u.params, WorldOf(u, x.axi.settings), x.core)
    requires NeverResets(u, x, ticks) && RunsThroughout(u, Step(u, x, ticks[0]), ticks[1..])
    requires Run(u, x, ticks).core.running
    ensures var y, requested := Run(u, x, ticks).core, x.axi.settings.requestedJobCount;
      var dropped, completed := if x.axi.pulses.softReset then 0 else x.core.jobsDropped,
                                if x.axi.pulses.softReset then 0 else x.core.jobsCompleted;
      && Partition(y, finished)
      && y.accepted == DispatchJobCount(ConfigOf(x.axi.settings)) <= requested
      && y.jobsDropped == (dropped + (requested - y.accepted)) % TWO_32
      && y.jobsCompleted == (completed + |finished|) % TWO_32
  {
    hide Next, AxiRegs.Clocked, Running, Setting, NeverResets, RunsThroughout, Idle;
    var w, c := WorldOf(u, x.axi.settings), ConfigOf(x.axi.settings);
    var i, y := InputOf(x, ticks[0]), Step(u, x, ticks[0]);
    SettingsLocked(u, x, ticks[0]);
    StepPulsed(u, x, ticks[0]);
    FirstQuiet(u, x, ticks);
    if i.softReset {
      BatchRuns.ResetLaunch(u.params, w, x.core, i);
    } else {
      BatchRuns.IdleLaunch(u.params, w, x.core, i);
    }
    assert Run(u, x, ticks) == Run(u, y, ticks[1..]);
    var e := CountersHold(u, y, ticks[1..], Begin(x.core, c, i.softReset));
    finished := e.finished;
    AcceptedFits(u.params, w, c);
    CountersOf(u.params, w, Run(u, x, ticks).core, e);
  }

  lemma FirstQuiet(u: Setup, x: Sys, ticks: seq<Tick>)
    requires ticks != [] && NeverResets(u, x, ticks)
    ensures !Step(u, x, ticks[0]).axi.pulses.softReset && NeverResets(u, Step(u, x, ticks[0]), ticks[1..])
  {
    hide Step, Resets;
    NoResetPulse(u, x, ticks[0]);
  }

  lemma CountersOf(p: Params, w: World, s: Regs, b: Batch)
    requires Running(p, w, s, b)
    ensures Partition(s, b.finished) && Counters(s, b)
  {
    hide Partition, ShadowHolds, MaskHolds, SlotHolds, Counters;
  }
}
