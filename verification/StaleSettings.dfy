/**
 * A request made while an earlier batch, given up on, still runs: its settings are dropped, its command
 * is taken, and the answer it gets is for the settings of the earlier request.
 */
module StaleSettings {
  import opened BatchSpec
  import opened BatchInvariant
  import opened System
  import AxiRegs
  import BatchRuns
  import Daemon
  import Payload

  // ----- the core -----

  /** A batch is running and not all of its results are in. */
  ghost predicate Unfinished(s: Regs) {
    s.running && s.busy && s.batchCompleted < s.scheduled <= MAX_JOB_COUNT
  }

  ghost predicate SameProgress(s: Regs, t: Regs) {
    t.batchCompleted == s.batchCompleted && t.scheduled == s.scheduled && t.batchId == s.batchId
  }

  /** Engine 0 is at work on a job, and only its end can end the batch. */
  ghost predicate Stuck(s: Regs) {
    Unfinished(s) && !s.abort && s.slot0.busy && !s.slot0.startPulse && s.unit0.Working?
  }

  /** The record of the next job is being loaded, or waits, for an engine 0 that is free. */
  ghost predicate Fetching(s: Regs) {
    && Unfinished(s) && !s.slot0.busy && !s.slot0.startPulse && (s.abort || s.unit0.Resting?)
    && (if Loading(s.load) then !s.load.valid && s.load.wordIndex < JOB_WORDS else s.load.valid)
  }

  /** Engine 0 has just been handed a record. */
  ghost predicate Handed(s: Regs) {
    Unfinished(s) && !s.abort && s.slot0.busy && s.slot0.startPulse && s.unit0.Resting?
  }

  /** A cycle of a single-engine core without a timeout, a reset, or an end of engine 0. */
  ghost predicate Eventless(p: Params, i: Input) {
    p.engines <= 1 && i.config.jobTimeoutCycles == 0 && !i.softReset && !i.finish0
  }

  /** A cycle in which no result comes in only moves the loader, the engine and the shadow record. */
  lemma EventlessCycle(p: Params, w: World, s: Regs, i: Input)
    requires Unfinished(s) && Eventless(p, i) && !Event0(s)
    ensures var t, u := Next(p, s, i, w), Settled(p, s, i, w);
      && t == Dispatch(p, s, u) && Unfinished(t) && SameProgress(s, t)
      && u.slot0 == Count(s.slot0) && u.load == LoaderCycle(s.load, w) && !u.abort
      && u.unit0 == UnitNext(s.unit0, s.abort, s.slot0, false, w)
  {
    hide LoaderCycle, UnitNext, MaskNext, Dispatch;
    SettledSame(p, s, i, w);
    NoTimeout(p, s, i.config);
    DispatchShape(p, s, Settled(p, s, i, w));
  }

  lemma NoTimeout(p: Params, s: Regs, c: Config)
    requires c.jobTimeoutCycles == 0
    ensures !Timeout(p, s, c)
  {
  }

  lemma StuckStays(p: Params, w: World, s: Regs, i: Input)
    requires Stuck(s) && Eventless(p, i)
    ensures Stuck(Next(p, s, i, w)) && SameProgress(s, Next(p, s, i, w))
  {
    EventlessCycle(p, w, s, i);
    hide Next, Settled, LoaderCycle, Unfinished;
  }

  /** Loading takes exactly the edges that are left, and then the record is handed over. */
  lemma FetchStep(p: Params, w: World, s: Regs, i: Input)
    requires Fetching(s) && Eventless(p, i)
    ensures var t := Next(p, s, i, w);
      && SameProgress(s, t)
      && (if BatchRuns.LoadLeft(s.load) > 0 then Fetching(t) && BatchRuns.LoadLeft(t.load) == BatchRuns.LoadLeft(s.load) - 1
          else Handed(t))
  {
    EventlessCycle(p, w, s, i);
    LoaderEdge(w, s.load);
    hide Next, Settled, LoaderCycle, Unfinished, BatchRuns.LoadLeft, StartNextLoad;
    var u := Settled(p, s, i, w);
    if s.load.valid {
      StartNextKeeps(s, u.(slot0 := Fill(u.slot0, s)));
    }
  }

  lemma StartNextKeeps(s: Regs, t: Regs)
    ensures var n := StartNextLoad(s, t); n.slot0 == t.slot0 && n.unit0 == t.unit0 && n.abort == t.abort
  {
    hide KickLoader;
    if s.nextLoadJobIndex < s.scheduled {
    }
  }

  lemma LoaderEdge(w: World, l: LoadRegs)
    requires if Loading(l) then !l.valid && l.wordIndex < JOB_WORDS else l.valid
    ensures var m := LoaderCycle(l, w);
      && (Loading(l) <==> BatchRuns.LoadLeft(l) > 0)
      && (if Loading(m) then !m.valid && m.wordIndex < JOB_WORDS else m.valid)
      && (Loading(l) ==> BatchRuns.LoadLeft(m) == BatchRuns.LoadLeft(l) - 1)
  {
    hide Capture;
  }

  lemma HandedStep(p: Params, w: World, s: Regs, i: Input)
    requires Handed(s) && Eventless(p, i)
    ensures Stuck(Next(p, s, i, w)) && SameProgress(s, Next(p, s, i, w))
  {
    EventlessCycle(p, w, s, i);
    hide Next, Settled, LoaderCycle, Unfinished;
  }

  /** A launch with a reset starts fetching, 72 edges from the end. */
  lemma LaunchFetches(p: Params, w: World, s: Regs, i: Input)
    requires i.start && i.softReset && LaunchError(p, i.config) == ERR_NONE
    ensures var t := Next(p, s, i, w);
      Fetching(t) && BatchRuns.LoadLeft(t.load) == 72 && t.batchCompleted == 0 && t.scheduled == DispatchJobCount(i.config)
  {
    assert 1 <= DispatchJobCount(i.config) <= MAX_JOB_COUNT;
    hide DispatchJobCount, UnitNext;
  }

  // ----- any traffic without a command -----

  /** The system in such a batch, under settings c. */
  ghost predicate StuckSystem(x: Sys, c: AxiRegs.Settings) {
    && Stuck(x.core) && x.axi.settings == c && c.jobTimeoutCycles == 0 && Daemon.Launchable(c)
    && x.axi.pulses == AxiRegs.NoPulses() && BatchRuns.Steady(Daemon.Deployed(), x.core)
  }

  /** Engine 0 does not end in any of these cycles. */
  ghost predicate NoEnd(ticks: seq<Tick>) {
    forall i :: 0 <= i < |ticks| ==> !ticks[i].finish0
  }

  lemma CommandlessPulses(u: Setup, x: Sys, t: Tick)
    requires !Commands(x, t)
    ensures Step(u, x, t).axi.pulses == AxiRegs.NoPulses()
  {
    hide AxiRegs.Clocked, AxiRegs.Command, Next, AxiRegs.Collect, AxiRegs.Answer, AxiRegs.Configure, AxiRegs.Commits;
    AxiRegs.ClockedFacts(x.axi, t.bus, x.core);
    AxiRegs.LowBits(AxiRegs.Command(AxiRegs.Committed(x.axi.w, t.bus)));
  }

  lemma StuckStep(u: Setup, x: Sys, t: Tick, c: AxiRegs.Settings)
    requires u.params == Daemon.Deployed() && StuckSystem(x, c) && !Commands(x, t) && !t.finish0
    ensures StuckSystem(Step(u, x, t), c) && SameProgress(x.core, Step(u, x, t).core)
  {
    hide AxiRegs.Clocked, Next, Commands, BatchRuns.Steady, Daemon.Launchable;
    CommandlessPulses(u, x, t);
    StuckStays(u.params, WorldOf(u, c), x.core, InputOf(x, t));
    BatchRuns.SteadyStays(u.params, WorldOf(u, c), x.core, InputOf(x, t));
    SettingsLocked(u, x, t);
  }

  /** For as long as no command comes and engine 0 does not end, nothing that is written changes a setting. */
  lemma {:induction false} StuckRun(u: Setup, x: Sys, ticks: seq<Tick>, c: AxiRegs.Settings)
    requires u.params == Daemon.Deployed() && StuckSystem(x, c) && Quiet(u, x, ticks) && NoEnd(ticks)
    ensures StuckSystem(Run(u, x, ticks), c) && SameProgress(x.core, Run(u, x, ticks).core)
    decreases |ticks|
  {
    hide Step, StuckSystem, Commands;
    if ticks != [] {
      StuckStep(u, x, ticks[0], c);
      StuckRun(u, Step(u, x, ticks[0]), ticks[1..], c);
    }
  }

  // ----- the command, and what the client then reads -----

  ghost predicate AllSilent(ticks: seq<Tick>) {
    forall i :: 0 <= i < |ticks| ==> Daemon.Silent(ticks[i])
  }

  lemma {:induction false} TrackingRun(u: Setup, x: Sys, ticks: seq<Tick>, id: nat, c: AxiRegs.Settings)
    requires Daemon.Tracking(u, x, id, c) && AllSilent(ticks)
    ensures Daemon.Tracking(u, Run(u, x, ticks), id, c)
    decreases |ticks|
  {
    hide Step, Daemon.Tracking;
    if ticks != [] {
      Daemon.TrackingStep(u, x, ticks[0], id, c);
      TrackingRun(u, Step(u, x, ticks[0]), ticks[1..], id, c);
    }
  }

  /** The reset-then-start command of the host. */
  ghost predicate Restarts(x: Sys, t: Tick) {
    Daemon.Writes(x, t, AxiRegs.ADDR_CONTROL, Daemon.CONTROL_CMD_RESET_THEN_START)
  }

  /** The next batch runs under the settings of the one that was abandoned. */
  lemma RestartsUnderOldSettings(u: Setup, x: Sys, ticks: seq<Tick>, t: Tick, c: AxiRegs.Settings)
    requires u.params == Daemon.Deployed() && |u.memory.jobs| == 8192
    requires StuckSystem(x, c) && Quiet(u, x, ticks) && NoEnd(ticks) && Restarts(Run(u, x, ticks), t)
    ensures Daemon.Tracking(u, Step(u, Run(u, x, ticks), t), (x.core.batchId + 1) % TWO_32, c)
  {
    hide Step, Stuck, BatchRuns.Steady, Daemon.Launchable, Daemon.Tracking, Setting;
    StuckRun(u, x, ticks, c);
    Daemon.LaunchableFits(u, c);
    Daemon.CommandStep(u, Run(u, x, ticks), t);
  }

  /** A status word that shows done or error. */
  ghost predicate ShowsEnd(y: Sys) {
    var bits := StatusBits(AxiRegs.ReadWord(y.axi, y.core, AxiRegs.ADDR_STATUS)); bits.1 || bits.2
  }

  ghost predicate Holds(u: Setup, q: Daemon.Request) {
    && u.params == Daemon.Deployed()
    && u.memory.message == Payload.Layout(q.message, 1024) && u.memory.jobs == Payload.Layout(Payload.Packed(q.jobs), 8192)
  }

  /**
   * Whatever is written to the settings meanwhile, and whenever the end of the restarted batch shows: the
   * batch id is the expected one, the answer describes the payload of q under the old settings, and it
   * does not describe q when these accept another number of jobs.
   */
  lemma StaleAnswer(u: Setup, x: Sys, ticks: seq<Tick>, t: Tick, after: seq<Tick>, c: AxiRegs.Settings, q: Daemon.Request)
    requires Holds(u, q) && StuckSystem(x, c) && Quiet(u, x, ticks) && NoEnd(ticks) && Restarts(Run(u, x, ticks), t)
    requires AllSilent(after) && ShowsEnd(Run(u, Step(u, Run(u, x, ticks), t), after))
    ensures var z := Run(u, Step(u, Run(u, x, ticks), t), after);
      && z.core.snapshot.accepted <= |z.core.resultMask|
      && var r := Daemon.ResultOf(z.core);
      && r.batchId == (x.core.batchId + 1) % TWO_32
      && Daemon.ReportsUnder(u.judge, q, c, r)
      && (DispatchJobCount(ConfigOf(c)) != Daemon.AcceptedJobs(q) ==> !Daemon.Reports(u.judge, q, r))
  {
    hide Step, StuckSystem, Daemon.Tracking, Payload.Layout, Payload.Packed, DispatchJobCount, Daemon.ReportsUnder;
    hide Daemon.Reports, Daemon.Done, Quiet, Restarts, AxiRegs.ReadWord;
    var y := Step(u, Run(u, x, ticks), t);
    var id := (x.core.batchId + 1) % TWO_32;
    RestartsUnderOldSettings(u, x, ticks, t, c);
    TrackingRun(u, y, after, id, c);
    var z := Run(u, y, after);
    Daemon.SameSelf(z.core);
    Daemon.DoneWhenShown(u, z, z, id, c);
    Readable(u, z, id, c);
    Daemon.TrackedReport(u, z, id, q, c, Daemon.ResultOf(z.core));
    if DispatchJobCount(ConfigOf(c)) != Daemon.AcceptedJobs(q) {
      Daemon.StaleCountMisreports(u.judge, q, c, Daemon.ResultOf(z.core));
    }
  }

  lemma Readable(u: Setup, x: Sys, id: nat, c: AxiRegs.Settings)
    requires Daemon.Done(u, x, id, c)
    ensures x.core.snapshot.accepted <= |x.core.resultMask|
  {
    Daemon.TrackedFits(u, x, id, c);
    hide Daemon.Tracking, Daemon.Verdicts, DispatchJobCount;
  }

  // ----- that it happens -----

  function IdleTick(finish0: bool): Tick {
    Tick(Daemon.IdleBus(), finish0, false)
  }

  function Idling(n: nat): (ticks: seq<Tick>)
    ensures |ticks| == n && forall i :: 0 <= i < n ==> ticks[i] == IdleTick(false)
  {
    seq(n, _ => IdleTick(false))
  }

  /** A full-word write and the cycle that retires its response. */
  function Put(addr: nat, value: nat): seq<Tick> {
    [Tick(Daemon.WriteBus(addr, value), false, false), IdleTick(false)]
  }

  /** The first n settings of a request, in the order of the host. */
  function PutSettings(q: Daemon.Request, n: nat): seq<Tick>
    requires n <= 4
  {
    if n == 0 then [] else PutSettings(q, n - 1) + Put(Daemon.SettingAddr(n - 1), Daemon.SettingWord(q, n - 1))
  }

  function PutCommand(): seq<Tick> {
    Put(AxiRegs.ADDR_CONTROL, Daemon.CONTROL_CMD_RESET_THEN_START)
  }

  /** No write is under way, and no response waits. */
  predicate Clear(x: Sys) {
    Daemon.WriteIdle(x.axi) && !x.axi.w.bvalid
  }

  lemma RunTwo(u: Setup, x: Sys, ticks: seq<Tick>)
    requires |ticks| == 2
    ensures Run(u, x, ticks) == Step(u, Step(u, x, ticks[0]), ticks[1])
  {
    hide Step;
    var y, rest := Step(u, x, ticks[0]), ticks[1..];
    assert rest[0] == ticks[1] && rest[1..] == [];
    assert Run(u, y, rest) == Run(u, Step(u, y, rest[0]), rest[1..]);
  }

  lemma {:induction false} RunJoin(u: Setup, x: Sys, a: seq<Tick>, b: seq<Tick>)
    ensures Run(u, x, a + b) == Run(u, Run(u, x, a), b)
    decreases |a|
  {
    hide Step;
    if a == [] {
      assert a + b == b;
    } else {
      RunJoin(u, Step(u, x, a[0]), a[1..], b);
      assert (a + b)[1..] == a[1..] + b;
    }
  }

  // ----- a request on a core that is not busy: all settings are taken -----

  lemma {:induction false} SettingsTaken(u: Setup, x: Sys, q: Daemon.Request, n: nat)
    requires u.params == Daemon.Deployed() && Daemon.WellTyped(q) && Daemon.Refusal(q).Proceed? && n <= 4
    requires Daemon.Usable(x) && Clear(x) && !x.core.busy
    ensures var y := Run(u, x, PutSettings(q, n));
      Daemon.Usable(y) && Clear(y) && !y.core.busy && y.axi.settings == Daemon.Partly(x.axi.settings, q, 0, n)
    decreases n
  {
    hide Step, Daemon.Usable, Daemon.Partly, Daemon.SettingAddr, Daemon.SettingWord, AxiRegs.IsSetting, AxiRegs.Configure, Put;
    if n == 0 {
      Daemon.PartlyNone(x.axi.settings, q);
    } else {
      SettingsTaken(u, x, q, n - 1);
      var y := Run(u, x, PutSettings(q, n - 1));
      RunJoin(u, x, PutSettings(q, n - 1), Put(Daemon.SettingAddr(n - 1), Daemon.SettingWord(q, n - 1)));
      Daemon.OneMoreSetting(x.axi.settings, q, 0, n - 1);
      OneTaken(u, y, Daemon.SettingAddr(n - 1), Daemon.SettingWord(q, n - 1));
    }
  }

  lemma OneTaken(u: Setup, x: Sys, addr: nat, value: nat)
    requires u.params == Daemon.Deployed() && Daemon.Usable(x) && Clear(x) && !x.core.busy
    requires addr % 4 == 0 && AxiRegs.IsSetting(addr)
    ensures var y := Run(u, x, Put(addr, value));
      && Daemon.Usable(y) && Clear(y) && !y.core.busy
      && y.axi.settings == AxiRegs.Configure(x.axi.settings, addr, AxiRegs.Write(addr, value, AxiRegs.AllLanes()))
  {
    hide Step, Daemon.Usable, AxiRegs.Configure, AxiRegs.IsSetting;
    var ticks := Put(addr, value);
    RunTwo(u, x, ticks);
    var y := Step(u, x, ticks[0]);
    Daemon.UsableSettingStep(u, x, ticks[0], addr, value);
    Daemon.UsableIdle(y);
    Daemon.UsableStep(u, y, ticks[1]);
    Daemon.SilentStep(u, y, ticks[1]);
  }

  // ----- a command, and the load of the first record -----

  /** From any state between requests: the command, and as many cycles as the first load takes. */
  function Begins(): seq<Tick> {
    PutCommand() + Idling(74)
  }

  lemma BeginsStuck(u: Setup, x: Sys, c: AxiRegs.Settings)
    requires u.params == Daemon.Deployed() && |u.memory.jobs| == 8192
    requires Daemon.Usable(x) && Clear(x) && x.axi.settings == c && Daemon.Launchable(c) && c.jobTimeoutCycles == 0
    ensures var y := Run(u, x, Begins());
      && StuckSystem(y, c) && Clear(y) && Daemon.Tracking(u, y, (x.core.batchId + 1) % TWO_32, c)
      && y.core.batchCompleted == 0 && y.core.scheduled == DispatchJobCount(ConfigOf(c))
  {
    hide Step, Daemon.Usable, Daemon.Launchable, Daemon.Tracking, FetchingSystem, StuckSystem, Put, Clear;
    hide BatchRuns.LoadLeft, DispatchJobCount, PutCommand;
    RunJoin(u, x, PutCommand(), Idling(74));
    CommandFetches(u, x, c);
    FetchRun(u, Run(u, x, PutCommand()), 72, (x.core.batchId + 1) % TWO_32, c);
  }

  /** A system that fetches, tracked by its client. */
  ghost predicate FetchingSystem(u: Setup, x: Sys, id: nat, c: AxiRegs.Settings) {
    && Fetching(x.core) && Clear(x) && Daemon.Launchable(c) && c.jobTimeoutCycles == 0
    && Daemon.Tracking(u, x, id, c) && x.axi.pulses == AxiRegs.NoPulses() && BatchRuns.Steady(Daemon.Deployed(), x.core)
  }

  lemma CommandFetches(u: Setup, x: Sys, c: AxiRegs.Settings)
    requires u.params == Daemon.Deployed() && |u.memory.jobs| == 8192
    requires Daemon.Usable(x) && Clear(x) && x.axi.settings == c && Daemon.Launchable(c) && c.jobTimeoutCycles == 0
    ensures var y := Run(u, x, PutCommand());
      && FetchingSystem(u, y, (x.core.batchId + 1) % TWO_32, c) && BatchRuns.LoadLeft(y.core.load) == 72
      && y.core.batchCompleted == 0 && y.core.scheduled == DispatchJobCount(ConfigOf(c))
  {
    hide Daemon.Usable, Daemon.Tracking, BatchRuns.Steady, Fetching, Setting, AxiRegs.Clocked, Next, LaunchError;
    hide DispatchJobCount, BatchRuns.LoadLeft, AxiRegs.Answer;
    var ticks, id := PutCommand(), (x.core.batchId + 1) % TWO_32;
    RunTwo(u, x, ticks);
    var y := Step(u, x, ticks[0]);
    Daemon.LaunchableFits(u, c);
    Daemon.CommandStep(u, x, ticks[0]);
    CommandPulse(u, x, ticks[0]);
    Daemon.SilentStep(u, y, ticks[1]);
    Daemon.TrackingStep(u, y, ticks[1], id, c);
    LaunchFetches(u.params, WorldOf(u, c), y.core, InputOf(y, ticks[1]));
    BatchRuns.SteadyStays(u.params, WorldOf(u, c), y.core, InputOf(y, ticks[1]));
  }

  lemma CommandPulse(u: Setup, x: Sys, t: Tick)
    requires u.params == Daemon.Deployed() && Daemon.Usable(x) && Restarts(x, t)
    ensures var y := Step(u, x, t);
      && y.axi.pulses.start && y.axi.pulses.softReset && Daemon.WriteIdle(y.axi) && y.axi.settings == x.axi.settings
      && BatchRuns.Steady(Daemon.Deployed(), y.core)
  {
    hide AxiRegs.Clocked, Next, AxiRegs.Answer, BatchRuns.Steady, AxiRegs.Commits, AxiRegs.Committed, AxiRegs.Collect;
    hide AxiRegs.ApplyStrobe, Daemon.Launchable;
    Daemon.WriteCommits(x, t, AxiRegs.ADDR_CONTROL, Daemon.CONTROL_CMD_RESET_THEN_START);
    AxiRegs.FullStrobe(0, Daemon.CONTROL_CMD_RESET_THEN_START, AxiRegs.AllLanes());
    AxiRegs.ClockedFacts(x.axi, t.bus, x.core);
    BatchRuns.SteadyStays(u.params, WorldOf(u, x.axi.settings), x.core, InputOf(x, t));
  }

  /** n edges of the loader, the hand-over, and the edge at which the engine takes the record. */
  lemma {:induction false} FetchRun(u: Setup, x: Sys, n: nat, id: nat, c: AxiRegs.Settings)
    requires u.params == Daemon.Deployed() && FetchingSystem(u, x, id, c) && BatchRuns.LoadLeft(x.core.load) == n
    ensures var y := Run(u, x, Idling(n + 2));
      StuckSystem(y, c) && Clear(y) && Daemon.Tracking(u, y, id, c) && SameProgress(x.core, y.core)
    decreases n
  {
    hide Daemon.Launchable, Daemon.Tracking, BatchRuns.Steady, Fetching, Handed, Stuck, AxiRegs.Clocked, Next;
    hide BatchRuns.LoadLeft, AxiRegs.Answer, Step;
    var ticks := Idling(n + 2);
    var y := Step(u, x, ticks[0]);
    IdleCycle(u, x, id, c);
    FetchStep(u.params, WorldOf(u, c), x.core, InputOf(x, ticks[0]));
    StepCore(u, x, ticks[0]);
    if n > 0 {
      FetchRun(u, y, n - 1, id, c);
      assert ticks[1..] == Idling(n - 1 + 2);
    } else {
      RunTwo(u, x, ticks);
      IdleCycle(u, y, id, c);
      StepCore(u, y, ticks[1]);
      HandedStep(u.params, WorldOf(u, c), y.core, InputOf(y, ticks[1]));
    }
  }

  lemma StepCore(u: Setup, x: Sys, t: Tick)
    ensures Step(u, x, t).core == Next(u.params, x.core, InputOf(x, t), WorldOf(u, x.axi.settings))
  {
  }

  /** A cycle without a transaction, seen from the bus. */
  lemma IdleCycle(u: Setup, x: Sys, id: nat, c: AxiRegs.Settings)
    requires u.params == Daemon.Deployed() && Clear(x) && Daemon.Tracking(u, x, id, c)
    requires x.axi.pulses == AxiRegs.NoPulses() && BatchRuns.Steady(Daemon.Deployed(), x.core)
    ensures var y := Step(u, x, IdleTick(false));
      && Clear(y) && Daemon.Tracking(u, y, id, c) && x.axi.settings == y.axi.settings == c
      && y.axi.pulses == AxiRegs.NoPulses() && BatchRuns.Steady(Daemon.Deployed(), y.core)
  {
    hide Step, BatchRuns.Steady, Next;
    var t := IdleTick(false);
    StepCore(u, x, t);
    Daemon.TrackingStep(u, x, t, id, c);
    TrackedSettings(u, x, id, c);
    hide Daemon.Tracking;
    Daemon.SilentStep(u, x, t);
    BatchRuns.SteadyStays(u.params, WorldOf(u, x.axi.settings), x.core, InputOf(x, t));
  }

  lemma TrackedSettings(u: Setup, x: Sys, id: nat, c: AxiRegs.Settings)
    requires Daemon.Tracking(u, x, id, c)
    ensures x.axi.settings == c
  {
    hide Daemon.Over, Daemon.RunsFresh, Fresh, Setting, Idle;
  }

  /** From reset, a request without a job timeout: its settings, its command, and its first load. */
  function FirstRequest(q: Daemon.Request): seq<Tick> {
    PutSettings(q, 4) + Begins()
  }

  /** For every request without a job timeout there is a run from reset in which its batch gets stuck. */
  lemma StuckIsReachable(u: Setup, q: Daemon.Request)
    requires u.params == Daemon.Deployed() && |u.memory.jobs| == 8192
    requires Daemon.WellTyped(q) && Daemon.Refusal(q).Proceed? && q.jobTimeoutCycles == 0
    ensures var x := Run(u, ResetSys(), FirstRequest(q)); StuckSystem(x, Daemon.SettingsOf(q)) && Clear(x)
  {
    hide Step, Daemon.Usable, Daemon.Launchable, Daemon.Tracking, Stuck, BatchRuns.Steady, PutSettings, Begins, Daemon.Partly;
    ResetUsable(u);
    SettingsTaken(u, ResetSys(), q, 4);
    Daemon.PartlyLaunchable(ResetSys().axi.settings, q, 0);
    RunJoin(u, ResetSys(), PutSettings(q, 4), Begins());
    BeginsStuck(u, Run(u, ResetSys(), PutSettings(q, 4)), Daemon.SettingsOf(q));
  }

  lemma ResetUsable(u: Setup)
    requires u.params == Daemon.Deployed()
    ensures Daemon.Usable(ResetSys()) && Clear(ResetSys()) && !ResetSys().core.busy
  {
    ResetIdle(u.params, WorldOf(u, ResetSys().axi.settings));
    hide Idle, Daemon.Usable;
    Daemon.RestIsUsable(u, ResetSys());
  }

  // ----- a second request on it -----

  /** Writing the settings of a request is traffic without a command. */
  lemma SettingsAreQuiet(u: Setup, x: Sys, q: Daemon.Request, c: AxiRegs.Settings, n: nat)
    requires u.params == Daemon.Deployed() && StuckSystem(x, c) && Clear(x) && n <= 4
    ensures var y := Run(u, x, PutSettings(q, n));
      StuckSystem(y, c) && Clear(y) && SameProgress(x.core, y.core) && Quiet(u, x, PutSettings(q, n)) && NoEnd(PutSettings(q, n))
    decreases n
  {
    hide Step, StuckSystem, Commands, Put, Daemon.SettingAddr, Daemon.SettingWord;
    if n > 0 {
      SettingsAreQuiet(u, x, q, c, n - 1);
      var y, put := Run(u, x, PutSettings(q, n - 1)), Put(Daemon.SettingAddr(n - 1), Daemon.SettingWord(q, n - 1));
      RunJoin(u, x, PutSettings(q, n - 1), put);
      AddrIsSetting(n - 1);
      OneDropped(u, y, Daemon.SettingAddr(n - 1), Daemon.SettingWord(q, n - 1), c);
      QuietJoin(u, x, PutSettings(q, n - 1), put);
    }
  }

  lemma AddrIsSetting(i: nat)
    ensures Daemon.SettingAddr(i) / 4 * 4 != AxiRegs.ADDR_CONTROL
  {
  }

  lemma OneDropped(u: Setup, x: Sys, addr: nat, value: nat, c: AxiRegs.Settings)
    requires u.params == Daemon.Deployed() && StuckSystem(x, c) && Clear(x) && addr / 4 * 4 != AxiRegs.ADDR_CONTROL
    ensures var y := Run(u, x, Put(addr, value));
      && StuckSystem(y, c) && Clear(y) && SameProgress(x.core, y.core)
      && Quiet(u, x, Put(addr, value)) && NoEnd(Put(addr, value)) && |Put(addr, value)| == 2
  {
    hide Step, StuckSystem;
    var ticks := Put(addr, value);
    RunTwo(u, x, ticks);
    var y := Step(u, x, ticks[0]);
    Daemon.WriteCommits(x, ticks[0], addr, value);
    StuckStep(u, x, ticks[0], c);
    AfterWrite(u, x, ticks[0]);
    Daemon.SilentStep(u, y, ticks[1]);
    StuckStep(u, y, ticks[1], c);
    assert ticks[1..][0] == ticks[1] && ticks[1..][1..] == [];
    assert Quiet(u, y, ticks[1..]);
  }

  lemma AfterWrite(u: Setup, x: Sys, t: Tick)
    ensures Step(u, x, t).axi.w == AxiRegs.Collect(x.axi.w, t.bus)
  {
    hide AxiRegs.Clocked, Next, AxiRegs.Collect, AxiRegs.Answer, AxiRegs.Configure, AxiRegs.Command;
    AxiRegs.ClockedFacts(x.axi, t.bus, x.core);
  }

  lemma {:induction false} QuietJoin(u: Setup, x: Sys, a: seq<Tick>, b: seq<Tick>)
    requires Quiet(u, x, a) && Quiet(u, Run(u, x, a), b)
    ensures Quiet(u, x, a + b)
    decreases |a|
  {
    hide Step, Commands;
    if a == [] {
      assert a + b == b;
    } else {
      QuietJoin(u, Step(u, x, a[0]), a[1..], b);
      assert (a + b)[1..] == a[1..] + b;
    }
  }

  /** The second request up to the first record, and the two cycles in which its only job ends. */
  function SecondRequest(q: Daemon.Request): seq<Tick> {
    PutSettings(q, 4) + Begins() + [IdleTick(true), IdleTick(false)]
  }

  /** With one job scheduled the end of engine 0 is the end of the batch. */
  lemma LastJobEnds(u: Setup, x: Sys, id: nat, c: AxiRegs.Settings)
    requires u.params == Daemon.Deployed() && StuckSystem(x, c) && Daemon.Tracking(u, x, id, c)
    requires x.core.batchCompleted == 0 && x.core.scheduled == 1
    ensures ShowsEnd(Run(u, x, [IdleTick(true), IdleTick(false)]))
  {
    hide AxiRegs.Clocked, AxiRegs.Answer, AxiRegs.StatusWord, AxiRegs.MaskWord, Daemon.Tracking, StatusBits;
    var ticks := [IdleTick(true), IdleTick(false)];
    RunTwo(u, x, ticks);
    var y := Step(u, x, ticks[0]);
    Daemon.TrackingIdle(u, x, id, c);
    Daemon.SilentStep(u, x, ticks[0]);
    Daemon.SilentStep(u, y, ticks[1]);
    EngineEnds(u.params, WorldOf(u, c), x.core, InputOf(x, ticks[0]));
    ResultEnds(u.params, WorldOf(u, c), y.core, InputOf(y, ticks[1]));
    var z := Step(u, y, ticks[1]);
    StatusDecodes(z.axi, z.core);
  }

  lemma EngineEnds(p: Params, w: World, s: Regs, i: Input)
    requires Stuck(s) && p.engines <= 1 && i.config.jobTimeoutCycles == 0 && !i.softReset && i.finish0
    ensures var t := Next(p, s, i, w);
      t.running && SameProgress(s, t) && t.slot0.busy && t.unit0.Reporting?
  {
    hide LoaderCycle, MaskNext, Dispatch;
    SettledSame(p, s, i, w);
    NoTimeout(p, s, i.config);
    DispatchShape(p, s, Settled(p, s, i, w));
  }

  lemma ResultEnds(p: Params, w: World, s: Regs, i: Input)
    requires s.running && s.slot0.busy && s.unit0.Reporting? && s.batchCompleted == 0 && s.scheduled == 1
    requires p.engines <= 1 && i.config.jobTimeoutCycles == 0 && !i.softReset
    ensures Next(p, s, i, w).done
  {
    hide LoaderCycle, MaskNext, Dispatch;
    NoTimeout(p, s, i.config);
  }

  /**
   * For every pair of requests, the first without a job timeout and with one accepted job, the second
   * with more: from reset there is a run in which the second is made while the first is running, ends
   * with done and the expected batch id, and is answered with a result that does not describe it.
   */
  lemma StaleAnswerHappens(u0: Setup, u: Setup, q0: Daemon.Request, q: Daemon.Request)
    requires Holds(u0, q0) && Holds(u, q)
    requires Daemon.WellTyped(q0) && Daemon.Refusal(q0).Proceed? && q0.jobTimeoutCycles == 0
    requires Daemon.AcceptedJobs(q0) == 1 < Daemon.AcceptedJobs(q)
    ensures var x := Run(u0, ResetSys(), FirstRequest(q0));
      var z := Run(u, x, SecondRequest(q));
      && x.core.busy && ShowsEnd(z) && z.core.snapshot.accepted <= |z.core.resultMask|
      && Daemon.ResultOf(z.core).batchId == (x.core.batchId + 1) % TWO_32
      && !Daemon.Reports(u.judge, q, Daemon.ResultOf(z.core))
  {
    hide Step, StuckSystem, Daemon.Tracking, Payload.Layout, Payload.Packed, DispatchJobCount, Daemon.ReportsUnder;
    hide Daemon.Reports, AxiRegs.ReadWord, PutSettings, Begins, FirstRequest, Clear, Put, NoEnd, AllSilent, ShowsEnd;
    var c := Daemon.SettingsOf(q0);
    StuckIsReachable(u0, q0);
    Daemon.RequestCounts(q0);
    var x := Run(u0, ResetSys(), FirstRequest(q0));
    StuckBusy(x, c);
    SettingsAreQuiet(u, x, q, c, 4);
    SecondEnds(u, x, q, c);
    var y := Run(u, x, PutSettings(q, 4));
    SplitSecond(u, x, q);
    CommandWrites(y);
    AfterSilent();
    var t, after := PutCommand()[0], PutCommand()[1..] + Idling(74) + [IdleTick(true), IdleTick(false)];
    StaleAnswer(u, x, PutSettings(q, 4), t, after, c, q);
  }

  lemma StuckBusy(x: Sys, c: AxiRegs.Settings)
    requires StuckSystem(x, c)
    ensures x.core.busy && x.axi.settings == c && Daemon.Launchable(c) && c.jobTimeoutCycles == 0
  {
    hide Daemon.Launchable, BatchRuns.Steady;
  }

  lemma StuckUsable(x: Sys, c: AxiRegs.Settings)
    requires StuckSystem(x, c) && Clear(x)
    ensures Daemon.Usable(x)
  {
    hide Daemon.Launchable, BatchRuns.Steady;
  }

  lemma SecondEnds(u: Setup, x: Sys, q: Daemon.Request, c: AxiRegs.Settings)
    requires u.params == Daemon.Deployed() && |u.memory.jobs| == 8192
    requires StuckSystem(x, c) && Clear(x) && DispatchJobCount(ConfigOf(c)) == 1
    ensures ShowsEnd(Run(u, x, SecondRequest(q)))
  {
    hide Step, StuckSystem, Daemon.Tracking, DispatchJobCount, PutSettings, Begins, Clear, ShowsEnd;
    SettingsAreQuiet(u, x, q, c, 4);
    var y := Run(u, x, PutSettings(q, 4));
    RunJoin(u, x, PutSettings(q, 4), Begins());
    RunJoin(u, x, PutSettings(q, 4) + Begins(), [IdleTick(true), IdleTick(false)]);
    StuckBusy(y, c);
    StuckUsable(y, c);
    BeginsStuck(u, y, c);
    LastJobEnds(u, Run(u, y, Begins()), (y.core.batchId + 1) % TWO_32, c);
  }

  lemma SplitSecond(u: Setup, x: Sys, q: Daemon.Request)
    ensures |PutCommand()| == 2
    ensures Run(u, x, SecondRequest(q)) == Run(u, Step(u, Run(u, x, PutSettings(q, 4)), PutCommand()[0]),
      PutCommand()[1..] + Idling(74) + [IdleTick(true), IdleTick(false)])
  {
    hide Step, PutSettings;
    var end, y := [IdleTick(true), IdleTick(false)], Run(u, x, PutSettings(q, 4));
    var rest := PutCommand() + Idling(74) + end;
    assert SecondRequest(q) == PutSettings(q, 4) + rest;
    RunJoin(u, x, PutSettings(q, 4), rest);
    assert rest[0] == PutCommand()[0] && rest[1..] == PutCommand()[1..] + Idling(74) + end;
  }

  lemma CommandWrites(y: Sys)
    requires Clear(y)
    ensures |PutCommand()| == 2 && Restarts(y, PutCommand()[0])
  {
  }

  lemma AfterSilent()
    ensures |PutCommand()| == 2 && AllSilent(PutCommand()[1..] + Idling(74) + [IdleTick(true), IdleTick(false)])
  {
  }
}
