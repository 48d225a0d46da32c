/**
 * When the watchdog ends a batch: a batch ends in the timeout error if and only if an engine slot has
 * been busy, from its start pulse on, for the configured number of cycles without its engine reporting.
 */
module BatchTimeouts {
  import opened BatchSpec
  import opened BatchInvariant
  import opened BatchRuns

  function SlotOf(s: Regs, second: bool): Slot {
    if second then s.slot1 else s.slot0
  }

  function UnitOf(s: Regs, second: bool): Unit {
    if second then s.unit1 else s.unit0
  }

  /** The slot is busy and its engine does not report. */
  predicate Waiting(s: Regs, second: bool) {
    SlotOf(s, second).busy && !UnitOf(s, second).Reporting?
  }

  /** The state after n of the inputs. */
  function At(p: Params, w: World, s: Regs, inputs: seq<Input>, n: nat): Regs
    requires n <= |inputs|
  {
    Run(p, s, inputs[..n], w)
  }

  /** A record is handed over in state m, and no report comes up to state n. */
  ghost predicate Unanswered(p: Params, w: World, s: Regs, inputs: seq<Input>, second: bool, m: nat, n: nat) {
    && m < n <= |inputs| && SlotOf(At(p, w, s, inputs, m), second).startPulse
    && forall j :: m <= j < n ==> Waiting(At(p, w, s, inputs, j), second)
  }

  // ----- one cycle -----

  /** A slot that waits counts on; otherwise it is free or has just been handed a record. */
  ghost predicate Counts(s: Regs, t: Regs, second: bool) {
    var a, z := SlotOf(s, second), SlotOf(t, second);
    && (Waiting(s, second) ==> z.busy && !z.startPulse && z.cycles == a.cycles + 1)
    && (z.busy && !Waiting(s, second) ==> z.startPulse && z.cycles == 0)
    && (z.startPulse ==> z.busy)
  }

  lemma SlotStep(p: Params, w: World, s: Regs, i: Input, b: Batch, second: bool)
    requires Running(p, w, s, b) && !i.softReset && Next(p, s, i, w).running
    requires SlotOf(s, second).busy ==> SlotOf(s, second).cycles + 1 < TWO_32
    ensures Counts(s, Next(p, s, i, w), second)
  {
    hide Settled, Dispatch, MaskHolds, Partition, ShadowHolds, SlotHolds, Counters, Timeout, Event0, Event1;
    var u := Settled(p, s, i, w);
    SettledSame(p, s, i, w);
    NoSecond(p, w, s, b);
    SettledSlot(p, s, i, w, second);
    DispatchShape(p, s, u);
  }

  lemma NoSecond(p: Params, w: World, s: Regs, b: Batch)
    requires Running(p, w, s, b)
    ensures p.engines <= 1 ==> !s.slot1.busy
    ensures s.running
  {
    hide MaskHolds, Partition, ShadowHolds, SlotHolds, Counters;
  }

  /** Before a dispatch: a slot that waits has counted one more cycle, any other slot is free. */
  lemma SettledSlot(p: Params, s: Regs, i: Input, w: World, second: bool)
    requires SlotOf(s, second).busy ==> SlotOf(s, second).cycles + 1 < TWO_32
    requires p.engines <= 1 ==> !s.slot1.busy
    ensures var z := SlotOf(Settled(p, s, i, w), second);
      z.busy == Waiting(s, second) && !z.startPulse && (z.busy ==> z.cycles == SlotOf(s, second).cycles + 1)
  {
    hide LoaderCycle, UnitNext, MaskNext;
  }

  /** A batch that ends in this cycle ends in a timeout when a slot that waits has had its cycles. */
  lemma EndStep(p: Params, w: World, s: Regs, i: Input, b: Batch)
    requires Running(p, w, s, b) && !i.softReset && i.config == b.config && Armed(b.config)
    requires Ticking(s, b.config.jobTimeoutCycles) && !Next(p, s, i, w).running
    ensures Next(p, s, i, w).errorCode == ERR_JOB_TIMEOUT <==>
      Spent(s, b.config.jobTimeoutCycles, false) || Spent(s, b.config.jobTimeoutCycles, true)
  {
    hide Settled, Dispatch, MaskHolds, Partition, ShadowHolds, Counters, SlotHolds;
    SettledSame(p, s, i, w);
    NoSecond(p, w, s, b);
    SpentIs(s.slot0, s.unit0, b.config);
    SpentIs(s.slot1, s.unit1, b.config);
    hide TimedOut;
    DispatchShape(p, s, Settled(p, s, i, w));
  }

  lemma SpentIs(slot: Slot, u: Unit, c: Config)
    requires Armed(c) && (slot.busy ==> slot.cycles < c.jobTimeoutCycles)
    ensures TimedOut(slot, u, c) <==> slot.busy && !u.Reporting? && slot.cycles + 1 == c.jobTimeoutCycles
  {
  }

  predicate Spent(s: Regs, timeout: nat, second: bool) {
    Waiting(s, second) && SlotOf(s, second).cycles + 1 == timeout
  }

  // ----- runs -----

  lemma {:induction false} Snoc(p: Params, w: World, s: Regs, inputs: seq<Input>, n: nat)
    requires n < |inputs|
    ensures At(p, w, s, inputs, n + 1) == Next(p, At(p, w, s, inputs, n), inputs[n], w)
    decreases n
  {
    hide Next;
    assert inputs[..n + 1][1..] == inputs[1..][..n];
    if n > 0 {
      assert inputs[..n][1..] == inputs[1..][..n - 1];
      Snoc(p, w, Next(p, s, inputs[0], w), inputs[1..], n - 1);
    } else {
      assert inputs[..0] == [] && inputs[1..][..0] == [];
      assert Run(p, Next(p, s, inputs[0], w), [], w) == Next(p, s, inputs[0], w);
    }
  }

  /** A batch just launched: it runs, and no slot has a record yet. */
  ghost predicate Starts(p: Params, w: World, s: Regs, b: Batch) {
    && Setting(p, w, b.config) && Running(p, w, s, b) && Armed(b.config)
    && !s.slot0.busy && !s.slot1.busy && !s.slot0.startPulse && !s.slot1.startPulse
  }

  /** Up to state n the batch runs. */
  ghost predicate RunsUpto(p: Params, w: World, s: Regs, inputs: seq<Input>, n: nat) {
    n <= |inputs| && forall j :: 0 <= j <= n ==> At(p, w, s, inputs, j).running
  }

  /** The cycle counter of a busy slot tells when its record was handed over. */
  ghost predicate Dated(p: Params, w: World, s: Regs, inputs: seq<Input>, second: bool, n: nat)
    requires n <= |inputs|
  {
    var z := SlotOf(At(p, w, s, inputs, n), second);
    && (z.startPulse ==> z.busy)
    && (z.busy ==>
      && z.cycles <= n && SlotOf(At(p, w, s, inputs, n - z.cycles), second).startPulse
      && forall j :: n - z.cycles <= j < n ==> Waiting(At(p, w, s, inputs, j), second))
  }

  /** No record is handed to a slot that waits. */
  ghost predicate Undisturbing(p: Params, w: World, s: Regs, inputs: seq<Input>, second: bool, n: nat)
    requires n <= |inputs|
  {
    forall j :: 0 < j <= n && Waiting(At(p, w, s, inputs, j - 1), second) ==> !SlotOf(At(p, w, s, inputs, j), second).startPulse
  }

  lemma {:induction false} History(p: Params, w: World, s: Regs, inputs: seq<Input>, b: Batch, second: bool, n: nat) returns (e: Batch)
    requires Starts(p, w, s, b) && Undisturbed(inputs, b.config) && RunsUpto(p, w, s, inputs, n)
    ensures Running(p, w, At(p, w, s, inputs, n), e) && e.config == b.config
    ensures Ticking(At(p, w, s, inputs, n), b.config.jobTimeoutCycles)
    ensures Dated(p, w, s, inputs, second, n) && Undisturbing(p, w, s, inputs, second, n)
    decreases n
  {
    hide Next, Running, Setting, Potential;
    if n == 0 {
      e := b;
    } else {
      hide Waiting, At;
      var d := History(p, w, s, inputs, b, second, n - 1);
      var x, i := At(p, w, s, inputs, n - 1), inputs[n - 1];
      Snoc(p, w, s, inputs, n - 1);
      RunKeeps(p, w, x, i, d);
      PotentialFalls(p, w, x, i, d);
      SlotStep(p, w, x, i, d, second);
      e := After(p, x, d);
    }
  }

  /** The watchdog ends a batch exactly then: the configured number of cycles after a record was handed over. */
  lemma TimeoutIff(p: Params, w: World, s: Regs, inputs: seq<Input>, b: Batch, n: nat)
    requires Starts(p, w, s, b) && Undisturbed(inputs, b.config)
    requires 1 <= n <= |inputs| && RunsUpto(p, w, s, inputs, n - 1) && !At(p, w, s, inputs, n).running
    ensures At(p, w, s, inputs, n).errorCode == ERR_JOB_TIMEOUT <==>
      exists second: bool, m: nat :: m + b.config.jobTimeoutCycles == n && Unanswered(p, w, s, inputs, second, m, n)
  {
    hide Next, Running, Setting, Waiting, At, Potential, SlotOf;
    var x, t, timeout := At(p, w, s, inputs, n - 1), At(p, w, s, inputs, n), b.config.jobTimeoutCycles;
    var d := History(p, w, s, inputs, b, false, n - 1);
    var _ := History(p, w, s, inputs, b, true, n - 1);
    Snoc(p, w, s, inputs, n - 1);
    EndStep(p, w, x, inputs[n - 1], d);
    hide Starts, RunsUpto, Ticking, Undisturbed;
    SpentIff(p, w, s, inputs, timeout, false, n);
    SpentIff(p, w, s, inputs, timeout, true, n);
    hide Dated, Undisturbing, Unanswered, Spent;
    if second: bool, m: nat :| m + timeout == n && Unanswered(p, w, s, inputs, second, m, n) {
      assert Spent(x, timeout, second);
    }
  }

  lemma SpentIff(p: Params, w: World, s: Regs, inputs: seq<Input>, timeout: nat, second: bool, n: nat)
    requires 1 <= n <= |inputs| && timeout > 0
    requires Dated(p, w, s, inputs, second, n - 1) && Undisturbing(p, w, s, inputs, second, n - 1)
    ensures Spent(At(p, w, s, inputs, n - 1), timeout, second) <==> timeout <= n && Unanswered(p, w, s, inputs, second, n - timeout, n)
  {
    hide At, Undisturbing;
    if timeout <= n && Unanswered(p, w, s, inputs, second, n - timeout, n) {
      SameStart(p, w, s, inputs, second, n - timeout, n - 1);
    }
  }

  lemma SameStart(p: Params, w: World, s: Regs, inputs: seq<Input>, second: bool, m: nat, n: nat)
    requires n < |inputs| && Unanswered(p, w, s, inputs, second, m, n + 1)
    requires Dated(p, w, s, inputs, second, n) && Undisturbing(p, w, s, inputs, second, n)
    ensures SlotOf(At(p, w, s, inputs, n), second).cycles == n - m
  {
    hide At, Undisturbing;
    var start: nat := n - SlotOf(At(p, w, s, inputs, n), second).cycles;
    assert Waiting(At(p, w, s, inputs, n), second);
    if start < m {
      NotHandedOver(p, w, s, inputs, second, m, n);
    } else if m < start {
      NotHandedOver(p, w, s, inputs, second, start, n);
    }
  }

  lemma NotHandedOver(p: Params, w: World, s: Regs, inputs: seq<Input>, second: bool, m: nat, n: nat)
    requires 0 < m <= n <= |inputs| && Undisturbing(p, w, s, inputs, second, n)
    ensures Waiting(At(p, w, s, inputs, m - 1), second) ==> !SlotOf(At(p, w, s, inputs, m), second).startPulse
  {
    hide Waiting, At;
  }

  /** Every engine reports less than the timeout after its record was handed over. */
  ghost predicate EveryRunReports(p: Params, w: World, s: Regs, inputs: seq<Input>, timeout: nat) {
    forall second: bool, m: nat :: m + timeout <= |inputs| && SlotOf(At(p, w, s, inputs, m), second).startPulse ==>
      exists j :: m <= j < m + timeout && !Waiting(At(p, w, s, inputs, j), second)
  }

  /** Then a launched batch ends without an error, with all its verdicts. */
  lemma EndsWithoutError(p: Params, w: World, s: Regs, i: Input, inputs: seq<Input>, c: Config) returns (k: nat, e: Batch)
    requires Setting(p, w, c) && Armed(c) && Undisturbed(inputs, c) && i.start && i.config == c
    requires if i.softReset then (p.engines <= 1 ==> s.unit1.Resting? && !s.slot1.startPulse) else Idle(p, w, s)
    requires |inputs| >= DispatchJobCount(c) * PerJob(c.jobTimeoutCycles)
    requires EveryRunReports(p, w, Next(p, s, i, w), inputs, c.jobTimeoutCycles)
    ensures 1 <= k <= DispatchJobCount(c) * PerJob(c.jobTimeoutCycles) && e.config == c
    ensures var t := Run(p, Next(p, s, i, w), inputs[..k], w);
      !t.running && t.done && !t.error && t.errorCode == ERR_NONE && Complete(w, t, e)
  {
    hide DispatchJobCount, PerJob, Potential, Ticking, Running, Setting, Idle, Ended, Next, Begin, Armed, Waiting, Complete;
    var t, b := Next(p, s, i, w), Begin(s, c, i.softReset);
    NotRunning(p, w, s);
    Launched(p, w, s, i, c);
    BeginConfig(s, c, i.softReset);
    EmptyAtLaunch(p, w, s, i, c);
    k, e := Ends(p, w, t, inputs, b);
    EndsOneWay(p, w, t, At(p, w, t, inputs, k), e);
    TimeoutIff(p, w, t, inputs, b, k);
  }

  lemma EmptyAtLaunch(p: Params, w: World, s: Regs, i: Input, c: Config)
    requires i.start && (i.softReset || !s.running) && i.config == c && Setting(p, w, c)
    ensures var t := Next(p, s, i, w); !t.slot0.busy && !t.slot1.busy && !t.slot0.startPulse && !t.slot1.startPulse
  {
    hide DispatchJobCount, LoaderCycle;
  }

  lemma EndsOneWay(p: Params, w: World, s: Regs, t: Regs, b: Batch)
    requires Ended(p, w, s, t, b)
    ensures !t.running && t.done && (t.errorCode != ERR_JOB_TIMEOUT ==> !t.error && t.errorCode == ERR_NONE && Complete(w, t, b))
  {
    hide Complete, MaskHolds;
    NotRunning(p, w, t);
    hide Idle;
  }

  lemma NotRunning(p: Params, w: World, t: Regs)
    ensures Idle(p, w, t) ==> !t.running
  {
    hide SlotHolds;
  }
}
