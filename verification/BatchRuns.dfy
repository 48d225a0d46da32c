/** Whole batches: from a launch to done, whatever the engines do, within a bounded number of cycles. */
module BatchRuns {
  import opened BatchSpec
  import opened BatchInvariant

  /** The state after a sequence of cycles. */
  function Run(p: Params, s: Regs, inputs: seq<Input>, w: World): Regs
    decreases |inputs|
  {
    if inputs == [] then s else Run(p, Next(p, s, inputs[0], w), inputs[1..], w)
  }

  /** The configuration is held and there is no reset. */
  ghost predicate Undisturbed(inputs: seq<Input>, c: Config) {
    forall i :: 0 <= i < |inputs| ==> inputs[i].config == c && !inputs[i].softReset
  }

  ghost predicate Armed(c: Config) {
    0 < c.jobTimeoutCycles < TWO_32
  }

  // ----- how a batch starts -----

  /** A launch from idle: the batch runs, with the next id. */
  lemma IdleLaunch(p: Params, w: World, s: Regs, i: Input)
    requires Idle(p, w, s) && i.start && !i.softReset && Setting(p, w, i.config)
    ensures var t := Next(p, s, i, w);
      Running(p, w, t, Begin(s, i.config, false)) && t.batchId == (s.batchId + 1) % TWO_32
  {
    hide LaunchBatch, LaunchError, DispatchJobCount, LoaderCycle, Job, Running;
    LaunchStarts(p, w, Moved(p, s, i, w), i.config, false);
  }

  /** Reset and start together launch from any state; the counters restart at zero. */
  lemma ResetLaunch(p: Params, w: World, s: Regs, i: Input)
    requires p.engines <= 1 ==> s.unit1.Resting? && !s.slot1.startPulse
    requires i.start && i.softReset && Setting(p, w, i.config)
    ensures var t := Next(p, s, i, w);
      Running(p, w, t, Begin(s, i.config, true)) && t.batchId == (s.batchId + 1) % TWO_32
  {
    hide LaunchBatch, LaunchError, DispatchJobCount, LoaderCycle, Job, Running;
    var t := Edge(s, i, w).(abort := true);
    ClearedStarts(p, w, t.(jobsCompleted := 0), t, i.config);
  }

  /** With counters cleared their old values do not matter. */
  lemma ClearedStarts(p: Params, w: World, s: Regs, t: Regs, c: Config)
    requires s == t.(jobsCompleted := 0) && t.abort && (p.engines <= 1 ==> t.unit1.Resting?) && Setting(p, w, c)
    ensures Running(p, w, LaunchBatch(p, t, c, true), Begin(t, c, true))
    ensures LaunchBatch(p, t, c, true).batchId == (t.batchId + 1) % TWO_32
  {
    LaunchStarts(p, w, s, c, true);
    hide LaunchError, DispatchJobCount, Job, Running;
    assert LaunchBatch(p, s, c, true) == LaunchBatch(p, t, c, true);
  }

  /** A rejected launch is done at once, with its error, its id, and nothing accepted. */
  lemma RejectedLaunch(p: Params, w: World, s: Regs, i: Input)
    requires i.start && (i.softReset || !s.running) && LaunchError(p, i.config) != ERR_NONE
    ensures var t, id, code := Next(p, s, i, w), (s.batchId + 1) % TWO_32, LaunchError(p, i.config);
      && t.done && t.error && !t.busy && !t.running && !t.resultValid && t.errorCode == code && t.batchId == id
      && t.snapshot == Snapshot(id, 0, 0, 0, true, false, code)
  {
    hide LaunchBatch, LaunchError, DispatchJobCount, LoaderCycle, UnitNext;
    if i.softReset {
      RejectedBatch(p, Edge(s, i, w).(abort := true), i.config, true);
    } else {
      RejectedBatch(p, Moved(p, s, i, w), i.config, false);
    }
  }

  lemma RejectedBatch(p: Params, s: Regs, c: Config, clearCounters: bool)
    requires LaunchError(p, c) != ERR_NONE
    ensures var t, id, code := LaunchBatch(p, s, c, clearCounters), (s.batchId + 1) % TWO_32, LaunchError(p, c);
      && t.done && t.error && !t.busy && !t.running && !t.resultValid && t.errorCode == code && t.batchId == id
      && t.snapshot == Snapshot(id, 0, 0, 0, true, false, code)
  {
    hide LaunchError, DispatchJobCount;
  }

  // ----- every reachable state -----

  /** Nothing in flight, or an accepted batch with this configuration running with its invariant. */
  ghost predicate Sane(p: Params, w: World, s: Regs, c: Config) {
    Idle(p, w, s) || (Setting(p, w, c) && exists b: Batch :: b.config == c && Running(p, w, s, b))
  }

  /** An idle core without a start stays idle, whatever world it is looked at in. */
  lemma IdleStays(p: Params, w: World, v: World, s: Regs, i: Input)
    requires Idle(p, w, s) && !i.start && !i.softReset
    ensures Idle(p, v, Next(p, s, i, w))
  {
    hide Job;
  }

  /** A second engine that does not exist stays out of the way. */
  ghost predicate OneEngine(p: Params, s: Regs) {
    p.engines <= 1 ==> s.unit1.Resting? && !s.slot1.startPulse
  }

  lemma SaneOneEngine(p: Params, w: World, s: Regs, c: Config)
    requires Sane(p, w, s, c)
    ensures OneEngine(p, s)
    ensures s.running <==> !Idle(p, w, s)
    ensures s.running <==> s.busy
  {
    hide Partition, ShadowHolds, MaskHolds, Counters, Setting, Job;
  }

  /** What holds of the control registers whatever the job memory holds, even while it is being rewritten. */
  ghost predicate Steady(p: Params, s: Regs) {
    OneEngine(p, s) && s.running == s.busy
  }

  lemma SteadyStays(p: Params, w: World, s: Regs, i: Input)
    requires Steady(p, s)
    ensures Steady(p, Next(p, s, i, w))
    ensures !i.start && !s.busy ==> !Next(p, s, i, w).busy
  {
    hide LaunchBatch, RunCycle, LoaderCycle;
    if i.softReset && i.start {
      LaunchIsSteady(p, Edge(s, i, w).(abort := true), i.config, true);
    } else if i.softReset {
    } else if s.running {
      RunIsSteady(p, w, s, i);
    } else if i.start {
      LaunchIsSteady(p, Moved(p, s, i, w), i.config, false);
    }
  }

  lemma LaunchIsSteady(p: Params, s: Regs, c: Config, clearCounters: bool)
    requires p.engines <= 1 ==> s.unit1.Resting?
    ensures Steady(p, LaunchBatch(p, s, c, clearCounters))
  {
    hide LaunchError, DispatchJobCount;
  }

  lemma RunIsSteady(p: Params, w: World, s: Regs, i: Input)
    requires Steady(p, s) && s.running
    ensures Steady(p, RunCycle(p, s, i, w))
  {
    hide Settled, Dispatch, Timeout, Event0, Event1, LoaderCycle;
    var u := Settled(p, s, i, w);
    SettledSame(p, s, i, w);
    SettledSteady(p, w, s, i);
    if Timeout(p, s, i.config) {
    } else if u.batchCompleted == s.scheduled {
    } else {
      DispatchShape(p, s, u);
    }
  }

  lemma SettledSteady(p: Params, w: World, s: Regs, i: Input)
    requires Steady(p, s) && s.running
    ensures var u := Settled(p, s, i, w); u.busy == s.busy && (p.engines <= 1 ==> u.unit1.Resting?)
  {
    hide LoaderCycle, MaskNext, DoneEvent;
  }

  /** A reset without a start leaves nothing in flight, from any state. */
  lemma ResetOnlyIdles(p: Params, w: World, v: World, s: Regs, i: Input)
    requires OneEngine(p, s) && i.softReset && !i.start
    ensures Idle(p, v, Next(p, s, i, w))
  {
    hide Job;
  }

  /** So does a rejected launch. */
  lemma RejectedIdles(p: Params, w: World, s: Regs, i: Input)
    requires i.start && LaunchError(p, i.config) != ERR_NONE
    requires if i.softReset then OneEngine(p, s) else Idle(p, w, s)
    ensures Idle(p, w, Next(p, s, i, w))
  {
    hide Job, LaunchError, DispatchJobCount, LoaderCycle;
  }

  /** The job memory holds every job that the range check of a launch lets through. */
  ghost predicate MemoryFits(p: Params, w: World) {
    p.jobRamDepth <= 4 * |w.jobs|
  }

  lemma AcceptedIsSetting(p: Params, w: World, c: Config)
    requires MemoryFits(p, w) && LaunchError(p, c) == ERR_NONE
    ensures Setting(p, w, c)
  {
    hide DispatchJobCount;
  }

  /** Every cycle, with or without a launch or a reset, keeps this. */
  lemma SaneStays(p: Params, w: World, s: Regs, i: Input)
    requires MemoryFits(p, w) && Sane(p, w, s, i.config)
    ensures Sane(p, w, Next(p, s, i, w), i.config)
  {
    hide Next, Idle, Running, Setting, LaunchError, MemoryFits, OneEngine;
    SaneOneEngine(p, w, s, i.config);
    if i.start && (i.softReset || !s.running) {
      LaunchIsSane(p, w, s, i);
    } else if i.softReset {
      ResetOnlyIdles(p, w, w, s, i);
    } else if s.running {
      var b: Batch :| b.config == i.config && Running(p, w, s, b);
      RunKeeps(p, w, s, i, b);
      EndedIsIdle(p, w, s, Next(p, s, i, w), After(p, s, b));
    } else {
      IdleStays(p, w, w, s, i);
    }
  }

  lemma LaunchIsSane(p: Params, w: World, s: Regs, i: Input)
    requires MemoryFits(p, w) && i.start && (if i.softReset then OneEngine(p, s) else Idle(p, w, s))
    ensures Sane(p, w, Next(p, s, i, w), i.config)
  {
    hide Next, Idle, Running, Setting, LaunchError, MemoryFits;
    if LaunchError(p, i.config) != ERR_NONE {
      RejectedIdles(p, w, s, i);
    } else {
      AcceptedIsSetting(p, w, i.config);
      if i.softReset {
        ResetLaunch(p, w, s, i);
      } else {
        IdleLaunch(p, w, s, i);
      }
    }
  }

  lemma EndedIsIdle(p: Params, w: World, s: Regs, t: Regs, b: Batch)
    ensures Ended(p, w, s, t, b) ==> Idle(p, w, t)
  {
    hide Idle, MaskHolds, Complete;
  }

  // ----- every batch ends -----

  /** Loader edges until the shadow record is complete. */
  function LoadLeft(l: LoadRegs): nat {
    if l.wordIndex >= JOB_WORDS then 0
    else match l.state
      case LdIdle => 0
      case LdReq => 3 * (JOB_WORDS - l.wordIndex)
      case LdWait => 3 * (JOB_WORDS - l.wordIndex) - 1
      case LdCapture => 3 * (JOB_WORDS - l.wordIndex) - 2
  }

  function AheadLeft(l: LoadRegs, timeout: nat): nat {
    if Loading(l) then LoadLeft(l) + 1 + timeout else if l.valid then 1 + timeout else 0
  }

  function SlotLeft(slot: Slot, timeout: nat): nat {
    if slot.busy && slot.cycles < timeout then timeout - slot.cycles else 0
  }

  /** Cycles a job takes at most: 72 to load, one to hand over, and the timeout. */
  function PerJob(timeout: nat): nat {
    3 * JOB_WORDS + 1 + timeout
  }

  /** Jobs not yet given to the loader. */
  function Unloaded(s: Regs): nat {
    if s.nextLoadJobIndex < s.scheduled then s.scheduled - s.nextLoadJobIndex else 0
  }

  /** An upper bound on the cycles left. */
  function Potential(s: Regs, timeout: nat): nat {
    Unloaded(s) * PerJob(timeout) + AheadLeft(s.load, timeout) + SlotLeft(s.slot0, timeout) + SlotLeft(s.slot1, timeout)
  }

  /** The watchdog has time left in each busy slot. */
  predicate Ticking(s: Regs, timeout: nat) {
    (s.slot0.busy ==> s.slot0.cycles < timeout) && (s.slot1.busy ==> s.slot1.cycles < timeout)
  }

  lemma LoaderAdvances(w: World, l: LoadRegs, timeout: nat)
    requires ShadowHolds(w, l)
    ensures AheadLeft(LoaderCycle(l, w), timeout) == if Loading(l) then AheadLeft(l, timeout) - 1 else AheadLeft(l, timeout)
  {
    hide Capture, Loaded, Job;
  }

  lemma SlotAdvances(slot: Slot, u: Unit, c: Config)
    requires Armed(c) && (slot.busy ==> slot.cycles < c.jobTimeoutCycles) && !TimedOut(slot, u, c)
    ensures var t := Free(Count(slot), DoneEvent(slot, u));
      && (t.busy ==> t.cycles < c.jobTimeoutCycles)
      && SlotLeft(t, c.jobTimeoutCycles) <= SlotLeft(slot, c.jobTimeoutCycles)
      && (slot.busy ==> SlotLeft(t, c.jobTimeoutCycles) < SlotLeft(slot, c.jobTimeoutCycles))
      && (!t.busy ==> SlotLeft(t, c.jobTimeoutCycles) == 0)
  {
  }

  /** One more job started loading: its whole share moves from the first term to the second. */
  lemma OneFewer(n: nat, k: nat)
    requires n > 0
    ensures n * k == (n - 1) * k + k
  {
  }

  /** Every cycle that does not end the batch uses up potential. */
  lemma PotentialFalls(p: Params, w: World, s: Regs, i: Input, b: Batch)
    requires Setting(p, w, b.config) && Running(p, w, s, b) && !i.softReset && i.config == b.config && Armed(b.config)
    requires Ticking(s, b.config.jobTimeoutCycles)
    ensures var t, timeout := Next(p, s, i, w), b.config.jobTimeoutCycles;
      t.running ==> Ticking(t, timeout) && Potential(t, timeout) < Potential(s, timeout)
  {
    var timeout, u := b.config.jobTimeoutCycles, Settled(p, s, i, w);
    hide Settled, LaunchError, DispatchJobCount, MaskHolds, Partition, ShadowHolds, SlotHolds, Upto, Dispatch, Event0;
    hide Event1;
    SettledSame(p, s, i, w);
    SettledGoes(p, w, s, i, b);
    if !Timeout(p, s, i.config) {
      SettledFalls(p, w, s, i, b, timeout);
      InFlight(p, w, s, b);
      if u.batchCompleted != s.scheduled {
        DispatchFalls(p, w, s, u, timeout);
      }
    }
  }

  /** Something is always in flight. */
  lemma InFlight(p: Params, w: World, s: Regs, b: Batch)
    requires Running(p, w, s, b)
    ensures Loading(s.load) || s.load.valid || s.slot0.busy || s.slot1.busy
  {
    hide Upto, MaskHolds, SlotHolds, ShadowHolds, DispatchJobCount;
    assert b.finished + {} + {} + {} == b.finished;
  }

  lemma PotentialPositive(p: Params, w: World, s: Regs, b: Batch, timeout: nat)
    requires Running(p, w, s, b) && Ticking(s, timeout)
    ensures Potential(s, timeout) >= 1
  {
    hide Running, LoadLeft, PerJob;
    InFlight(p, w, s, b);
    Share(Unloaded(s), PerJob(timeout));
    hide Unloaded;
  }

  lemma Share(n: nat, k: nat)
    ensures n * k >= 0
  {
  }

  /** Without the dispatch: loader and slots use up potential, except a shadow record waiting alone. */
  lemma SettledFalls(p: Params, w: World, s: Regs, i: Input, b: Batch, timeout: nat)
    requires Running(p, w, s, b) && i.config == b.config && Armed(b.config) && timeout == b.config.jobTimeoutCycles
    requires Ticking(s, timeout) && !Timeout(p, s, i.config)
    ensures var u := Settled(p, s, i, w);
      && Ticking(u, timeout) && Potential(u, timeout) <= Potential(s, timeout)
      && (Loading(s.load) || s.slot0.busy || s.slot1.busy ==> Potential(u, timeout) < Potential(s, timeout))
      && (!u.slot0.busy ==> SlotLeft(u.slot0, timeout) == 0) && (!u.slot1.busy ==> SlotLeft(u.slot1, timeout) == 0)
  {
    hide LoaderCycle, UnitNext, MaskNext, MaskHolds, Partition, ShadowHolds, SlotHolds, Upto, AheadLeft, SlotLeft;
    hide PerJob, DoneEvent;
    LoaderAdvances(w, s.load, timeout);
    SlotAdvances(s.slot0, s.unit0, b.config);
    if p.engines > 1 {
      SlotAdvances(s.slot1, s.unit1, b.config);
    } else {
      IdleSlot(s.slot1, timeout);
    }
  }

  lemma IdleSlot(slot: Slot, timeout: nat)
    requires !slot.busy
    ensures SlotLeft(slot, timeout) == SlotLeft(Free(slot.(startPulse := false), false), timeout) == 0
  {
  }

  /** Handing a record over costs the one cycle it was due, and the next load starts within its share. */
  lemma DispatchFalls(p: Params, w: World, s: Regs, u: Regs, timeout: nat)
    requires s.nextLoadJobIndex == u.nextLoadJobIndex && s.scheduled == u.scheduled && s.nextLoadWordBase == u.nextLoadWordBase
    requires u.slot0.busy == (s.slot0.busy && !Event0(s)) && u.slot1.busy == (s.slot1.busy && !Event1(p, s))
    requires ShadowHolds(w, u.load) && SameShadow(s.load, u.load) && Ticking(u, timeout) && timeout > 0
    requires (!u.slot0.busy ==> SlotLeft(u.slot0, timeout) == 0) && (!u.slot1.busy ==> SlotLeft(u.slot1, timeout) == 0)
    ensures var t := Dispatch(p, s, u);
      && Ticking(t, timeout)
      && (if To0(s, u) || To1(p, s, u) then Potential(t, timeout) < Potential(u, timeout)
          else Potential(t, timeout) == Potential(u, timeout))
  {
    hide Dispatch, Event0, Event1, ShadowHolds;
    DispatchShape(p, s, u);
    BothIdle(w, u.load);
    if s.nextLoadJobIndex < s.scheduled {
      OneFewer(s.scheduled - s.nextLoadJobIndex, PerJob(timeout));
    }
  }

  /** A batch that starts running is done within its potential, and ends as it should. */
  lemma {:induction false} Ends(p: Params, w: World, s: Regs, inputs: seq<Input>, b: Batch) returns (k: nat, e: Batch)
    requires Setting(p, w, b.config) && Running(p, w, s, b) && Armed(b.config)
    requires Ticking(s, b.config.jobTimeoutCycles) && Undisturbed(inputs, b.config)
    requires |inputs| >= Potential(s, b.config.jobTimeoutCycles)
    ensures 1 <= k <= Potential(s, b.config.jobTimeoutCycles) && e == b.(finished := e.finished)
    ensures Ended(p, w, s, Run(p, s, inputs[..k], w), e)
    ensures forall j :: 0 <= j < k ==> Run(p, s, inputs[..j], w).running
    decreases Potential(s, b.config.jobTimeoutCycles)
  {
    hide Next, Running, Ended, Potential, Setting;
    PotentialPositive(p, w, s, b, b.config.jobTimeoutCycles);
    RunKeeps(p, w, s, inputs[0], b);
    PotentialFalls(p, w, s, inputs[0], b);
    var t := Next(p, s, inputs[0], w);
    IsRunning(p, w, s, b);
    if t.running {
      k, e := Ends(p, w, t, inputs[1..], After(p, s, b));
      k := k + 1;
      assert inputs[..k][1..] == inputs[1..][..k - 1];
      SameEnd(p, w, s, t, Run(p, s, inputs[..k], w), e);
      forall j | 0 < j < k ensures Run(p, s, inputs[..j], w).running {
        assert inputs[..j][1..] == inputs[1..][..j - 1];
      }
    } else {
      k, e := 1, After(p, s, b);
      assert inputs[..1][1..] == [];
    }
  }

  lemma IsRunning(p: Params, w: World, s: Regs, b: Batch)
    requires Running(p, w, s, b)
    ensures s.running
  {
    hide Counters, Partition, ShadowHolds, SlotHolds, MaskHolds;
  }

  lemma SameEnd(p: Params, w: World, s: Regs, t: Regs, last: Regs, b: Batch)
    requires Ended(p, w, t, last, b) && t.batchId == s.batchId && t.accepted == s.accepted
    ensures Ended(p, w, s, last, b)
  {
    hide Complete, MaskHolds, Idle;
  }

  /** The potential of a batch just launched: one share for each accepted job. */
  lemma LaunchPotential(p: Params, w: World, s: Regs, c: Config, clearCounters: bool)
    requires Setting(p, w, c) && Armed(c)
    ensures var t := LaunchBatch(p, s, c, clearCounters);
      && Potential(t, c.jobTimeoutCycles) == DispatchJobCount(c) * PerJob(c.jobTimeoutCycles)
      && Ticking(t, c.jobTimeoutCycles)
  {
    assert 1 <= DispatchJobCount(c);
    OneFewer(DispatchJobCount(c), PerJob(c.jobTimeoutCycles));
    hide DispatchJobCount, PerJob;
  }

  /**
   * With a nonzero timeout and no reset, every accepted launch is done within one cycle for the launch
   * and, for each accepted job, 72 to load it, one to hand it over, and the timeout; whatever the
   * engines do. A batch that ends without error has every verdict in its bit.
   */
  lemma LaunchedBatchEnds(p: Params, w: World, s: Regs, inputs: seq<Input>, c: Config) returns (k: nat, e: Batch)
    requires |inputs| >= 1 + DispatchJobCount(c) * PerJob(c.jobTimeoutCycles)
    requires Setting(p, w, c) && Armed(c) && Undisturbed(inputs[1..], c)
    requires inputs[0].start && inputs[0].config == c
    requires if inputs[0].softReset then (p.engines <= 1 ==> s.unit1.Resting? && !s.slot1.startPulse) else Idle(p, w, s)
    ensures 1 < k <= 1 + DispatchJobCount(c) * PerJob(c.jobTimeoutCycles)
    ensures e == Begin(s, c, inputs[0].softReset).(finished := e.finished)
    ensures Ended(p, w, Next(p, s, inputs[0], w), Run(p, s, inputs[..k], w), e)
    ensures Run(p, s, inputs[..k], w).batchId == (s.batchId + 1) % TWO_32
  {
    hide DispatchJobCount, PerJob, Potential, Ticking, Running, Setting, Idle, Ended, Next, Run, Begin, Armed;
    var t := Next(p, s, inputs[0], w);
    Launched(p, w, s, inputs[0], c);
    BeginConfig(s, c, inputs[0].softReset);
    k, e := Ends(p, w, t, inputs[1..], Begin(s, c, inputs[0].softReset));
    FirstOf(p, w, s, inputs, k + 1);
    EndedId(p, w, t, Run(p, t, inputs[1..][..k], w), e);
    k := k + 1;
  }

  lemma BeginConfig(s: Regs, c: Config, clearCounters: bool)
    ensures Begin(s, c, clearCounters).config == c
  {
  }

  /** A launch from idle, or with a reset: the batch runs with the next id and its whole potential. */
  lemma Launched(p: Params, w: World, s: Regs, i: Input, c: Config)
    requires i.start && i.config == c && Setting(p, w, c) && Armed(c)
    requires if i.softReset then (p.engines <= 1 ==> s.unit1.Resting? && !s.slot1.startPulse) else Idle(p, w, s)
    ensures var t := Next(p, s, i, w);
      && Running(p, w, t, Begin(s, c, i.softReset)) && t.batchId == (s.batchId + 1) % TWO_32
      && Potential(t, c.jobTimeoutCycles) == DispatchJobCount(c) * PerJob(c.jobTimeoutCycles)
      && Ticking(t, c.jobTimeoutCycles)
  {
    hide DispatchJobCount, PerJob, Potential, Ticking, Running, Setting, Next, Armed;
    if i.softReset {
      ResetLaunch(p, w, s, i);
    } else {
      IdleLaunch(p, w, s, i);
    }
    FirstPotential(p, w, s, i, c);
  }

  lemma EndedId(p: Params, w: World, s: Regs, t: Regs, b: Batch)
    requires Ended(p, w, s, t, b)
    ensures t.batchId == s.batchId
  {
    hide Idle, MaskHolds, Complete;
  }

  lemma FirstPotential(p: Params, w: World, s: Regs, i: Input, c: Config)
    requires i.start && (i.softReset || !s.running) && i.config == c && Setting(p, w, c) && Armed(c)
    ensures Potential(Next(p, s, i, w), c.jobTimeoutCycles) == DispatchJobCount(c) * PerJob(c.jobTimeoutCycles)
    ensures Ticking(Next(p, s, i, w), c.jobTimeoutCycles)
  {
    hide LaunchBatch, DispatchJobCount, PerJob, Potential, Ticking, Setting;
    if i.softReset {
      LaunchPotential(p, w, Edge(s, i, w).(abort := true), c, true);
    } else {
      LaunchPotential(p, w, Moved(p, s, i, w), c, false);
    }
  }

  lemma FirstOf(p: Params, w: World, s: Regs, inputs: seq<Input>, k: nat)
    requires 1 <= k <= |inputs|
    ensures Run(p, s, inputs[..k], w) == Run(p, Next(p, s, inputs[0], w), inputs[1..][..k - 1], w)
  {
    hide Next;
    assert inputs[..k][1..] == inputs[1..][..k - 1];
  }
}
