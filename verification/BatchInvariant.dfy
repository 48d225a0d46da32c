/**
 * What every cycle of a batch keeps: the split of the job indices, the contents of the shadow record
 * and the engine slots, the result bits, and the job counters.
 */
module BatchInvariant {
  import opened BatchSpec

  /** The batch as seen when it was launched; finished is the history of recorded results. */
  datatype Batch = Batch(config: Config, completedBefore: nat, droppedBefore: nat, finished: set<nat>)

  /** The jobs of an accepted batch fit the word addresses of the loader. */
  ghost predicate Setting(p: Params, w: World, c: Config) {
    && LaunchError(p, c) == ERR_NONE
    && JOB_WORDS * DispatchJobCount(c) <= |w.jobs|
  }

  // ----- where a job can be -----

  predicate Loading(l: LoadRegs) {
    l.state != LdIdle
  }

  /** The index being loaded or waiting in the shadow record. */
  function Ahead(l: LoadRegs): set<nat> {
    if Loading(l) || l.valid then {l.jobIndex} else {}
  }

  function In(slot: Slot): set<nat> {
    if slot.busy then {slot.jobIndex} else {}
  }

  /** {0, ..., n - 1}. */
  function Upto(n: nat): (r: set<nat>)
    ensures forall i: nat :: i in r <==> i < n
    ensures |r| == n
  {
    if n == 0 then {} else Upto(n - 1) + {n - 1}
  }

  /** Indices below nextLoadJobIndex: finished, in engine 0, in engine 1, or ahead of both; no overlap. */
  ghost predicate Partition(s: Regs, finished: set<nat>) {
    Split(finished, In(s.slot0), In(s.slot1), Ahead(s.load), s.nextLoadJobIndex)
  }

  ghost predicate Split(finished: set<nat>, engine0: set<nat>, engine1: set<nat>, ahead: set<nat>, n: nat) {
    && finished + engine0 + engine1 + ahead == Upto(n)
    && finished !! engine0 && finished !! engine1 && finished !! ahead
    && engine0 !! engine1 && engine0 !! ahead && engine1 !! ahead
  }

  // ----- contents -----

  /** An engine slot and the engine behind it. */
  ghost predicate SlotHolds(w: World, slot: Slot, u: Unit, abort: bool) {
    && (slot.startPulse ==> slot.busy && !abort)
    && (slot.busy ==> !abort && slot.jobIndex < MASK_BITS && JOB_WORDS * slot.jobIndex + JOB_WORDS <= |w.jobs|)
    && (slot.busy ==> slot.record == Job(w, slot.jobIndex))
    && (slot.busy && !slot.startPulse ==> u.Working? || u.Reporting?)
    && (slot.busy && !slot.startPulse && u.Working? ==> u.record == slot.record)
    && (slot.busy && !slot.startPulse && u.Reporting? ==> u.record == slot.record && u.verified == w.verdict(u.record))
    && (slot.startPulse ==> u.Resting?)
    && (!slot.busy ==> abort || u.Resting?)
  }

  /** The shadow record is the job, up to the word being fetched. */
  ghost predicate ShadowHolds(w: World, l: LoadRegs) {
    && |l.shadow.pubkey| == LANES && |l.shadow.sigR| == LANES && |l.shadow.sigS| == LANES
    && !(Loading(l) && l.valid)
    && (Loading(l) || l.valid ==> JOB_WORDS * l.jobIndex + JOB_WORDS <= |w.jobs|)
    && (l.valid ==> l.shadow == Job(w, l.jobIndex))
    && (Loading(l) ==>
      && l.wordBase == JOB_WORDS * l.jobIndex && l.wordIndex < JOB_WORDS
      && Loaded(w, l.shadow, l.jobIndex, l.wordIndex)
      && (l.state == LdWait || l.state == LdCapture ==> l.dout == w.jobs[l.wordBase + l.wordIndex]))
  }

  function Lane(r: Record, k: nat): nat
    requires |r.pubkey| == |r.sigR| == |r.sigS| == LANES && k < JOB_WORDS
  {
    if k < 8 then r.pubkey[k] else if k < 16 then r.sigR[k - 8] else r.sigS[k - 16]
  }

  ghost predicate Loaded(w: World, r: Record, job: nat, n: nat)
    requires |r.pubkey| == |r.sigR| == |r.sigS| == LANES && JOB_WORDS * job + JOB_WORDS <= |w.jobs| && n <= JOB_WORDS
  {
    forall k :: 0 <= k < n ==> Lane(r, k) == w.jobs[JOB_WORDS * job + k]
  }

  /** Finished jobs have their verdict in the mask, all other bits are clear. */
  ghost predicate MaskHolds(w: World, mask: seq<bool>, finished: set<nat>) {
    && |mask| == MASK_BITS
    && (forall i :: 0 <= i < MASK_BITS && i !in finished ==> !mask[i])
    && (forall i :: i in finished ==>
      i < MASK_BITS && JOB_WORDS * i + JOB_WORDS <= |w.jobs| && mask[i] == w.verdict(Job(w, i)))
  }

  ghost predicate Counters(s: Regs, b: Batch) {
    && s.accepted == s.scheduled == DispatchJobCount(b.config)
    && 1 <= s.nextLoadJobIndex <= s.scheduled <= MAX_JOB_COUNT
    && s.nextLoadWordBase == JOB_WORDS * s.nextLoadJobIndex
    && |b.finished| == s.batchCompleted < s.scheduled
    && s.jobsCompleted == (b.completedBefore + s.batchCompleted) % TWO_32
    && s.jobsDropped == (b.droppedBefore + (b.config.requestedJobCount - s.accepted)) % TWO_32
  }

  /** The invariant of a running batch. */
  ghost predicate Running(p: Params, w: World, s: Regs, b: Batch) {
    && s.running && s.busy && !s.done && !s.error
    && Counters(s, b)
    && (s.nextLoadJobIndex < s.scheduled ==> Loading(s.load) || s.load.valid)
    && Partition(s, b.finished)
    && ShadowHolds(w, s.load)
    && SlotHolds(w, s.slot0, s.unit0, s.abort) && SlotHolds(w, s.slot1, s.unit1, s.abort)
    && (p.engines <= 1 ==> !s.slot1.busy && s.unit1.Resting?)
    && MaskHolds(w, s.resultMask, b.finished)
  }

  /** Between batches nothing is in flight; an engine may only be working while its abort is on. */
  ghost predicate Idle(p: Params, w: World, s: Regs) {
    && !s.running && !s.busy && s.load.state == LdIdle && !s.load.valid
    && !s.slot0.busy && !s.slot1.busy
    && SlotHolds(w, s.slot0, s.unit0, s.abort) && SlotHolds(w, s.slot1, s.unit1, s.abort)
    && (p.engines <= 1 ==> s.unit1.Resting?)
    && s.jobsCompleted < TWO_32
  }

  lemma ResetIdle(p: Params, w: World)
    ensures Idle(p, w, ResetRegs())
  {
  }

  // ----- how a batch begins -----

  ghost function Begin(s: Regs, c: Config, clearCounters: bool): Batch {
    if clearCounters then Batch(c, 0, 0, {}) else Batch(c, s.jobsCompleted, s.jobsDropped, {})
  }

  /** An accepted launch starts a running batch, whatever was going on when counters are cleared. */
  lemma LaunchStarts(p: Params, w: World, s: Regs, c: Config, clearCounters: bool)
    requires Setting(p, w, c)
    requires s.abort || (s.unit0.Resting? && s.unit1.Resting?)
    requires p.engines <= 1 ==> s.unit1.Resting?
    requires s.jobsCompleted < TWO_32
    ensures Running(p, w, LaunchBatch(p, s, c, clearCounters), Begin(s, c, clearCounters))
    ensures LaunchBatch(p, s, c, clearCounters).batchId == (s.batchId + 1) % TWO_32
  {
    hide Job;
    assert Upto(1) == {0};
    assert 1 <= DispatchJobCount(c) <= MAX_JOB_COUNT;
  }

  // ----- the loader -----

  lemma LoaderKeeps(w: World, l: LoadRegs)
    requires ShadowHolds(w, l)
    ensures var t := LoaderCycle(l, w);
      && ShadowHolds(w, t) && Ahead(t) == Ahead(l) && t.jobIndex == l.jobIndex
      && (l.valid ==> t.valid && t.shadow == l.shadow)
  {
    hide Loaded, Capture, Job;
    if l.state == LdCapture {
      CaptureKeeps(w, l.shadow, l.jobIndex, l.wordIndex);
    }
  }

  lemma CaptureKeeps(w: World, r: Record, job: nat, n: nat)
    requires |r.pubkey| == |r.sigR| == |r.sigS| == LANES && JOB_WORDS * job + JOB_WORDS <= |w.jobs| && n < JOB_WORDS
    requires Loaded(w, r, job, n)
    ensures var t := Capture(r, n, w.jobs[JOB_WORDS * job + n]);
      && |t.pubkey| == |t.sigR| == |t.sigS| == LANES && Loaded(w, t, job, n + 1)
      && (n + 1 == JOB_WORDS ==> t == Job(w, job))
  {
    var b := JOB_WORDS * job;
    var t := Capture(r, n, w.jobs[b + n]);
    forall k | 0 <= k < n + 1 ensures Lane(t, k) == w.jobs[b + k] {
      if k < n {
        assert Lane(r, k) == w.jobs[b + k];
      }
    }
    if n + 1 == JOB_WORDS {
      WholeRecord(w, t, job);
    }
  }

  lemma WholeRecord(w: World, r: Record, job: nat)
    requires |r.pubkey| == |r.sigR| == |r.sigS| == LANES && JOB_WORDS * job + JOB_WORDS <= |w.jobs|
    requires Loaded(w, r, job, JOB_WORDS)
    ensures r == Job(w, job)
  {
    var b, j := JOB_WORDS * job, Job(w, job);
    forall k | 0 <= k < 8 ensures r.pubkey[k] == j.pubkey[k] && r.sigR[k] == j.sigR[k] && r.sigS[k] == j.sigS[k] {
      assert Lane(r, k) == w.jobs[b + k] && Lane(r, k + 8) == w.jobs[b + (k + 8)] && Lane(r, k + 16) == w.jobs[b + (k + 16)];
    }
    assert r.pubkey == j.pubkey && r.sigR == j.sigR && r.sigS == j.sigS;
  }

  // ----- the slots -----

  /** A busy slot keeps its record and its engine until the engine reports; then both are free. */
  lemma SlotKeeps(w: World, slot: Slot, u: Unit, abort: bool, finish: bool)
    requires SlotHolds(w, slot, u, abort)
    ensures var event := DoneEvent(slot, u);
      && SlotHolds(w, Free(Count(slot), event), UnitNext(u, abort, slot, finish, w), false)
      && (event ==> u.verified == w.verdict(Job(w, slot.jobIndex)))
      && (event || !slot.busy ==> UnitNext(u, abort, slot, finish, w).Resting?)
  {
  }

  // ----- results arriving -----

  function FinishedNext(p: Params, s: Regs, finished: set<nat>): set<nat> {
    finished + (if Event0(s) then {s.slot0.jobIndex} else {}) + (if Event1(p, s) then {s.slot1.jobIndex} else {})
  }

  /** Recorded results leave their slot and join the finished jobs. */
  lemma EventsPartition(p: Params, s: Regs, i: Input, w: World, finished: set<nat>)
    requires Partition(s, finished) && Ahead(LoaderCycle(s.load, w)) == Ahead(s.load)
    ensures Partition(Settled(p, s, i, w), FinishedNext(p, s, finished))
    ensures |FinishedNext(p, s, finished)| == |finished| + Events(p, s) <= s.nextLoadJobIndex
    ensures FinishedNext(p, s, finished) <= Upto(s.nextLoadJobIndex)
  {
    hide Upto, LoaderCycle, Split, UnitNext, MaskNext, DoneEvent;
    InFree(s.slot0, Event0(s));
    InFree(s.slot1, Event1(p, s));
    SplitEvents(finished, In(s.slot0), In(s.slot1), Ahead(s.load), s.nextLoadJobIndex, Event0(s), Event1(p, s));
    EventSlots(p, s);
    hide In;
    assert Settled(p, s, i, w).nextLoadJobIndex == s.nextLoadJobIndex;
  }

  lemma InFree(slot: Slot, event: bool)
    ensures In(Free(Count(slot), event)) == if event then {} else In(slot)
    ensures In(Free(slot.(startPulse := false), event)) == if event then {} else In(slot)
  {
  }

  lemma EventSlots(p: Params, s: Regs)
    ensures Event0(s) ==> In(s.slot0) == {s.slot0.jobIndex}
    ensures Event1(p, s) ==> In(s.slot1) == {s.slot1.jobIndex}
  {
  }

  lemma SplitEvents(finished: set<nat>, a: set<nat>, b: set<nat>, ahead: set<nat>, n: nat, event0: bool, event1: bool)
    requires Split(finished, a, b, ahead, n)
    ensures var f := finished + (if event0 then a else {}) + (if event1 then b else {});
      && Split(f, if event0 then {} else a, if event1 then {} else b, ahead, n)
      && |f| == |finished| + (if event0 then |a| else 0) + (if event1 then |b| else 0) <= n && f <= Upto(n)
  {
    hide Upto, Split;
    var f, rest := finished + (if event0 then a else {}), if event0 then {} else a;
    SplitEvent(finished, a, b, ahead, n, event0);
    Commute(f, rest, b, ahead, n);
    SplitEvent(f, b, rest, ahead, n, event1);
    var g := f + (if event1 then b else {});
    Commute(g, if event1 then {} else b, rest, ahead, n);
    SplitFits(g, rest, if event1 then {} else b, ahead, n);
  }

  lemma SplitEvent(finished: set<nat>, a: set<nat>, b: set<nat>, ahead: set<nat>, n: nat, event: bool)
    requires Split(finished, a, b, ahead, n)
    ensures var f := finished + (if event then a else {});
      Split(f, if event then {} else a, b, ahead, n) && |f| == |finished| + (if event then |a| else 0)
  {
    hide Upto, Split;
    if event {
      Retire(finished, a, b, ahead, n);
    } else {
      assert finished + {} == finished;
    }
  }

  lemma Retire(finished: set<nat>, a: set<nat>, b: set<nat>, ahead: set<nat>, n: nat)
    requires Split(finished, a, b, ahead, n)
    ensures Split(finished + a, {}, b, ahead, n) && |finished + a| == |finished| + |a|
  {
    hide Upto;
  }

  lemma Commute(finished: set<nat>, a: set<nat>, b: set<nat>, ahead: set<nat>, n: nat)
    requires Split(finished, a, b, ahead, n)
    ensures Split(finished, b, a, ahead, n)
  {
    hide Upto;
  }

  lemma SplitFits(finished: set<nat>, a: set<nat>, b: set<nat>, ahead: set<nat>, n: nat)
    requires Split(finished, a, b, ahead, n)
    ensures finished <= Upto(n) && |finished| <= n
  {
    hide Upto;
    Smaller(finished, Upto(n));
  }

  lemma Smaller(a: set<nat>, b: set<nat>)
    requires a <= b
    ensures |a| <= |b| && (|a| == |b| ==> a == b)
  {
    assert b == a + (b - a);
  }

  lemma EventsMask(p: Params, w: World, s: Regs, finished: set<nat>)
    requires Partition(s, finished) && MaskHolds(w, s.resultMask, finished)
    requires SlotHolds(w, s.slot0, s.unit0, s.abort) && SlotHolds(w, s.slot1, s.unit1, s.abort)
    ensures MaskHolds(w, MaskNext(p, s), FinishedNext(p, s, finished))
  {
    hide Upto, MaskHolds, SlotHolds, SetBit, DoneEvent;
    NotYetFinished(p, s, finished);
    var f := finished + (if Event0(s) then {s.slot0.jobIndex} else {});
    var mask := if Event0(s) then SetBit(s.resultMask, s.slot0, s.unit0) else s.resultMask;
    BitHolds(w, s.resultMask, finished, s.slot0, s.unit0, s.abort, Event0(s));
    BitHolds(w, mask, f, s.slot1, s.unit1, s.abort, Event1(p, s));
    hide Event0, Event1;
  }

  lemma NotYetFinished(p: Params, s: Regs, finished: set<nat>)
    requires Partition(s, finished)
    ensures Event0(s) ==> s.slot0.jobIndex !in finished
    ensures Event1(p, s) ==> s.slot1.jobIndex !in finished + (if Event0(s) then {s.slot0.jobIndex} else {})
  {
    hide Upto;
  }

  lemma BitHolds(w: World, mask: seq<bool>, finished: set<nat>, slot: Slot, u: Unit, abort: bool, event: bool)
    requires MaskHolds(w, mask, finished) && SlotHolds(w, slot, u, abort)
    requires event ==> DoneEvent(slot, u) && slot.jobIndex !in finished
    ensures MaskHolds(w, if event then SetBit(mask, slot, u) else mask, finished + (if event then {slot.jobIndex} else {}))
  {
    hide Job;
    assert !event ==> finished + {} == finished;
  }

  lemma EventsSlots(p: Params, w: World, s: Regs, i: Input)
    requires SlotHolds(w, s.slot0, s.unit0, s.abort) && SlotHolds(w, s.slot1, s.unit1, s.abort)
    requires p.engines <= 1 ==> !s.slot1.busy && s.unit1.Resting?
    ensures var u := Settled(p, s, i, w);
      && SlotHolds(w, u.slot0, u.unit0, false) && SlotHolds(w, u.slot1, u.unit1, false)
      && (p.engines <= 1 ==> !u.slot1.busy && u.unit1.Resting?)
      && (!u.slot0.busy ==> u.unit0.Resting?) && (!u.slot1.busy ==> u.unit1.Resting?)
  {
    hide LoaderCycle, MaskNext, Job;
    SlotKeeps(w, s.slot0, s.unit0, s.abort, i.finish0);
    SlotKeeps(w, s.slot1, s.unit1, s.abort, i.finish1);
  }

  // ----- handing a record on -----

  /** What holds of the run state once the results of a cycle are recorded and it goes on. */
  ghost predicate Going(p: Params, w: World, u: Regs, b: Batch) {
    && u.running && u.busy && !u.done && !u.error && !u.abort
    && (u.nextLoadJobIndex < u.scheduled ==> Loading(u.load) || u.load.valid)
    && Partition(u, b.finished)
    && ShadowHolds(w, u.load)
    && SlotHolds(w, u.slot0, u.unit0, false) && SlotHolds(w, u.slot1, u.unit1, false)
    && (!u.slot0.busy ==> u.unit0.Resting?) && (!u.slot1.busy ==> u.unit1.Resting?)
    && (p.engines <= 1 ==> !u.slot1.busy && u.unit1.Resting?)
    && MaskHolds(w, u.resultMask, b.finished)
  }

  /** The shadow register, when valid before the edge, still is the same after it. */
  predicate SameShadow(l: LoadRegs, m: LoadRegs) {
    l.valid ==> m.valid && m.shadow == l.shadow && m.jobIndex == l.jobIndex
  }

  lemma DispatchKeeps(p: Params, w: World, s: Regs, u: Regs, b: Batch)
    requires Setting(p, w, b.config) && Going(p, w, u, b) && Counters(u, b) && SameShadow(s.load, u.load)
    requires s.nextLoadJobIndex == u.nextLoadJobIndex && s.scheduled == u.scheduled && s.nextLoadWordBase == u.nextLoadWordBase
    requires u.slot0.busy == (s.slot0.busy && !Event0(s)) && u.slot1.busy == (s.slot1.busy && !Event1(p, s))
    ensures Running(p, w, Dispatch(p, s, u), b)
  {
    hide Going, Counters, Running, Dispatch, To0, To1, Setting, Event0, Event1;
    if To0(s, u) {
      HandedTo0(p, w, s, u, b);
    } else if To1(p, s, u) {
      HandedTo1(p, w, s, u, b);
    } else {
      DispatchShape(p, s, u);
      GoesOn(p, w, u, b);
      BothIdle(w, u.load) by { GoingLoad(p, w, u, b); }
    }
  }

  lemma GoingLoad(p: Params, w: World, u: Regs, b: Batch)
    requires Going(p, w, u, b)
    ensures ShadowHolds(w, u.load)
  {
  }

  lemma GoesOn(p: Params, w: World, u: Regs, b: Batch)
    requires Going(p, w, u, b) && Counters(u, b)
    ensures Running(p, w, u, b)
  {
    hide Partition, ShadowHolds, SlotHolds, MaskHolds, Counters;
  }

  lemma HandedTo0(p: Params, w: World, s: Regs, u: Regs, b: Batch)
    requires Setting(p, w, b.config) && Going(p, w, u, b) && Counters(u, b) && SameShadow(s.load, u.load)
    requires s.nextLoadJobIndex == u.nextLoadJobIndex && s.scheduled == u.scheduled && s.nextLoadWordBase == u.nextLoadWordBase
    requires u.slot0.busy == (s.slot0.busy && !Event0(s)) && u.slot1.busy == (s.slot1.busy && !Event1(p, s))
    requires To0(s, u)
    ensures Running(p, w, Dispatch(p, s, u), b)
  {
    hide Upto, MaskHolds, LaunchError, DispatchJobCount, DoneEvent, Split, Dispatch, ShadowHolds, SlotHolds, Fill;
    hide KickLoader, Event0, Event1;
    DispatchShape(p, s, u);
    BothIdle(w, u.load);
    HandOver(b.finished, In(u.slot0), In(u.slot1), u.load.jobIndex, u.nextLoadJobIndex, true, u.nextLoadJobIndex < u.scheduled);
    FillHolds(w, s, u, true);
    KickHolds(w, u.load, u.nextLoadJobIndex, u.scheduled);
  }

  lemma HandedTo1(p: Params, w: World, s: Regs, u: Regs, b: Batch)
    requires Setting(p, w, b.config) && Going(p, w, u, b) && Counters(u, b) && SameShadow(s.load, u.load)
    requires s.nextLoadJobIndex == u.nextLoadJobIndex && s.scheduled == u.scheduled && s.nextLoadWordBase == u.nextLoadWordBase
    requires u.slot0.busy == (s.slot0.busy && !Event0(s)) && u.slot1.busy == (s.slot1.busy && !Event1(p, s))
    requires To1(p, s, u)
    ensures Running(p, w, Dispatch(p, s, u), b)
  {
    hide Upto, MaskHolds, LaunchError, DispatchJobCount, DoneEvent, Split, Dispatch, ShadowHolds, SlotHolds, Fill;
    hide KickLoader, Event0, Event1;
    DispatchShape(p, s, u);
    BothIdle(w, u.load);
    HandOver(b.finished, In(u.slot0), In(u.slot1), u.load.jobIndex, u.nextLoadJobIndex, false, u.nextLoadJobIndex < u.scheduled);
    FillHolds(w, s, u, false);
    KickHolds(w, u.load, u.nextLoadJobIndex, u.scheduled);
  }

  predicate To0(s: Regs, u: Regs) {
    s.load.valid && !u.slot0.busy
  }

  predicate To1(p: Params, s: Regs, u: Regs) {
    s.load.valid && !To0(s, u) && p.engines > 1 && !u.slot1.busy
  }

  /** The shadow and loader registers after a dispatch. */
  function Reload(u: Regs): LoadRegs {
    var l := u.load.(valid := false);
    if u.nextLoadJobIndex < u.scheduled then KickLoader(l, u.nextLoadWordBase).(jobIndex := u.nextLoadJobIndex) else l
  }

  lemma DispatchShape(p: Params, s: Regs, u: Regs)
    requires s.nextLoadJobIndex == u.nextLoadJobIndex && s.scheduled == u.scheduled && s.nextLoadWordBase == u.nextLoadWordBase
    requires u.slot0.busy == (s.slot0.busy && !Event0(s)) && u.slot1.busy == (s.slot1.busy && !Event1(p, s))
    ensures var more := u.nextLoadJobIndex < u.scheduled;
      Dispatch(p, s, u) == if !To0(s, u) && !To1(p, s, u) then u else
        u.(slot0 := if To0(s, u) then Fill(u.slot0, s) else u.slot0, slot1 := if To0(s, u) then u.slot1 else Fill(u.slot1, s),
          load := Reload(u), jobsStarted := (s.jobsStarted + 1) % TWO_32, currentJobIndex := s.load.jobIndex,
          nextLoadJobIndex := if more then u.nextLoadJobIndex + 1 else u.nextLoadJobIndex,
          nextLoadWordBase := if more then u.nextLoadWordBase + JOB_WORDS else u.nextLoadWordBase)
  {
    hide Event0, Event1, Fill, KickLoader;
  }

  lemma BothIdle(w: World, l: LoadRegs)
    requires ShadowHolds(w, l)
    ensures l.valid ==> !Loading(l) && Ahead(l) == {l.jobIndex}
  {
    hide Job, Loaded;
  }

  /** A record moving from the shadow register to a slot moves in the partition, and the next index joins. */
  lemma HandOver(finished: set<nat>, a: set<nat>, b: set<nat>, job: nat, n: nat, to0: bool, more: bool)
    requires Split(finished, a, b, {job}, n) && (if to0 then a == {} else b == {})
    ensures job < n
    ensures Split(finished, if to0 then {job} else a, if to0 then b else {job}, if more then {n} else {}, if more then n + 1 else n)
  {
    IndexBelow(finished + a + b, job, n);
    MoveAhead(finished, a, b, job, n, to0);
    if more {
      Extend(finished, if to0 then {job} else a, if to0 then b else {job}, n);
    }
  }

  lemma IndexBelow(rest: set<nat>, job: nat, n: nat)
    requires rest + {job} == Upto(n)
    ensures job < n
  {
    assert job in rest + {job};
  }

  lemma MoveAhead(finished: set<nat>, a: set<nat>, b: set<nat>, job: nat, n: nat, to0: bool)
    requires Split(finished, a, b, {job}, n) && (if to0 then a == {} else b == {})
    ensures Split(finished, if to0 then {job} else a, if to0 then b else {job}, {}, n)
  {
    hide Split;
    if to0 {
      MoveFirst(finished, b, {job}, n);
    } else {
      Commute(finished, a, b, {job}, n);
      MoveFirst(finished, a, {job}, n);
      Commute(finished, {job}, a, {}, n);
    }
  }

  lemma MoveFirst(finished: set<nat>, b: set<nat>, ahead: set<nat>, n: nat)
    requires Split(finished, {}, b, ahead, n)
    ensures Split(finished, ahead, b, {}, n)
  {
    hide Upto;
    assert finished + ahead + b + {} == finished + {} + b + ahead;
  }

  lemma Extend(finished: set<nat>, a: set<nat>, b: set<nat>, n: nat)
    requires Split(finished, a, b, {}, n)
    ensures Split(finished, a, b, {n}, n + 1)
  {
    assert Upto(n + 1) == Upto(n) + {n};
    assert n !in Upto(n);
    hide Upto;
  }

  lemma FillHolds(w: World, s: Regs, u: Regs, to0: bool)
    requires ShadowHolds(w, u.load) && s.load.valid && SameShadow(s.load, u.load) && u.load.jobIndex < MASK_BITS
    requires if to0 then u.unit0.Resting? else u.unit1.Resting?
    ensures SlotHolds(w, Fill(u.slot0, s), if to0 then u.unit0 else u.unit1, false)
    ensures Fill(u.slot0, s) == Fill(u.slot1, s)
    ensures In(Fill(u.slot0, s)) == {u.load.jobIndex}
  {
    hide Job, Loaded;
  }

  lemma KickHolds(w: World, l: LoadRegs, next: nat, scheduled: nat)
    requires JOB_WORDS * scheduled <= |w.jobs| && l.valid && ShadowHolds(w, l)
    ensures next < scheduled ==>
      var t := KickLoader(l.(valid := false), JOB_WORDS * next).(jobIndex := next);
      ShadowHolds(w, t) && Ahead(t) == {next} && Loading(t)
    ensures ShadowHolds(w, l.(valid := false)) && Ahead(l.(valid := false)) == {}
  {
    hide Job;
  }

  // ----- one cycle of a running batch -----

  function After(p: Params, s: Regs, b: Batch): Batch {
    b.(finished := FinishedNext(p, s, b.finished))
  }

  /** A finished batch without error has the verdict of every accepted job, and counts them all. */
  ghost predicate Complete(w: World, t: Regs, b: Batch) {
    && t.accepted == DispatchJobCount(b.config) && JOB_WORDS * t.accepted <= |w.jobs|
    && |t.resultMask| == MASK_BITS && t.accepted <= MASK_BITS
    && (forall i :: 0 <= i < t.accepted ==> t.resultMask[i] == w.verdict(Job(w, i)))
    && (forall i :: t.accepted <= i < MASK_BITS ==> !t.resultMask[i])
    && t.jobsCompleted == (b.completedBefore + t.accepted) % TWO_32
    && t.jobsDropped == (b.droppedBefore + (b.config.requestedJobCount - t.accepted)) % TWO_32
  }

  /** How a batch ends: the snapshot of its own id, and either all results or the timeout code. */
  ghost predicate Ended(p: Params, w: World, s: Regs, t: Regs, b: Batch) {
    && t.done && Idle(p, w, t) && t.batchId == s.batchId
    && t.snapshot == Snapshot(s.batchId, s.accepted, t.jobsCompleted, t.jobsDropped, t.error, true, t.errorCode)
    && MaskHolds(w, t.resultMask, b.finished)
    && (if t.error then t.errorCode == ERR_JOB_TIMEOUT && b.config.jobTimeoutCycles != 0
        else t.errorCode == ERR_NONE && Complete(w, t, b))
  }

  lemma SettledGoes(p: Params, w: World, s: Regs, i: Input, b: Batch)
    requires Running(p, w, s, b)
    ensures var u, e := Settled(p, s, i, w), After(p, s, b);
      && Going(p, w, u, e) && SameShadow(s.load, u.load)
      && |e.finished| == u.batchCompleted <= s.nextLoadJobIndex && e.finished <= Upto(s.nextLoadJobIndex)
      && u.jobsCompleted == (b.completedBefore + u.batchCompleted) % TWO_32
  {
    hide Upto, MaskHolds, DispatchJobCount, DoneEvent, Split, Partition, LoaderCycle, UnitNext, MaskNext, SlotHolds;
    hide ShadowHolds;
    LoaderKeeps(w, s.load);
    EventsPartition(p, s, i, w, b.finished);
    EventsMask(p, w, s, b.finished);
    EventsSlots(p, w, s, i);
    Recount(b.completedBefore, s.batchCompleted, Events(p, s));
    StillAhead(s.load, LoaderCycle(s.load, w));
    hide Events, FinishedNext;
  }

  lemma StillAhead(l: LoadRegs, m: LoadRegs)
    requires Ahead(l) == Ahead(m) && m.jobIndex == l.jobIndex
    ensures Loading(l) || l.valid ==> Loading(m) || m.valid
  {
    assert l.jobIndex in {l.jobIndex};
  }

  lemma Recount(before: nat, n: nat, events: nat)
    requires n + events <= MAX_JOB_COUNT
    ensures ((before + n) % TWO_32 + events) % TWO_32 == (before + (n + events)) % TWO_32
    ensures (n + events) % TWO_8 == n + events
  {
  }

  /** One cycle of a running batch: it stays running with the invariant, or it ends. */
  lemma RunKeeps(p: Params, w: World, s: Regs, i: Input, b: Batch)
    requires Setting(p, w, b.config) && Running(p, w, s, b) && !i.softReset && i.config == b.config
    ensures var t := Next(p, s, i, w);
      if t.running then Running(p, w, t, After(p, s, b)) && t.batchId == s.batchId && t.accepted == s.accepted
      else Ended(p, w, s, t, After(p, s, b))
  {
    hide Settled, Dispatch, DispatchJobCount, Timeout, MaskHolds, Partition, ShadowHolds, SlotHolds, Event0, Event1;
    hide Upto, Complete;
    var u, e := Settled(p, s, i, w), After(p, s, b);
    SettledGoes(p, w, s, i, b);
    SettledSame(p, s, i, w);
    if Timeout(p, s, i.config) {
      StopsIdle(p, w, u, true, ERR_JOB_TIMEOUT);
      TimeoutArmed(p, s, i.config);
    } else if u.batchCompleted == s.scheduled {
      AllFinished(u, e.finished, s.scheduled);
      StopsIdle(p, w, u, false, ERR_NONE);
      NoAbort(u);
      SettingFits(p, w, b.config);
      AllVerdicts(w, u, e, e.finished);
    } else {
      DispatchKeeps(p, w, s, u, e);
      DispatchShape(p, s, u);
    }
  }

  lemma NoAbort(u: Regs)
    requires !u.abort
    ensures FinalizeBatch(u, false, ERR_NONE, u.jobsCompleted).(abort := false) == FinalizeBatch(u, false, ERR_NONE, u.jobsCompleted)
  {
  }

  lemma SettingFits(p: Params, w: World, c: Config)
    requires Setting(p, w, c)
    ensures JOB_WORDS * DispatchJobCount(c) <= |w.jobs|
  {
  }

  lemma SettledSame(p: Params, s: Regs, i: Input, w: World)
    ensures var u := Settled(p, s, i, w);
      && u.nextLoadJobIndex == s.nextLoadJobIndex && u.scheduled == s.scheduled && u.nextLoadWordBase == s.nextLoadWordBase
      && u.slot0.busy == (s.slot0.busy && !Event0(s)) && u.slot1.busy == (s.slot1.busy && !Event1(p, s))
      && u.accepted == s.accepted && u.batchId == s.batchId && u.jobsDropped == s.jobsDropped
      && u.running == s.running && !u.abort && !u.slot0.startPulse && !u.slot1.startPulse
  {
    hide LoaderCycle, UnitNext, MaskNext, DoneEvent;
  }

  lemma TimeoutArmed(p: Params, s: Regs, c: Config)
    requires Timeout(p, s, c)
    ensures c.jobTimeoutCycles != 0
  {
  }

  /** Finalising leaves nothing in flight; after a timeout the abort stops the engines. */
  lemma StopsIdle(p: Params, w: World, u: Regs, error: bool, code: nat)
    requires !u.slot0.startPulse && !u.slot1.startPulse && u.jobsCompleted < TWO_32
    requires p.engines <= 1 ==> u.unit1.Resting?
    requires !error ==> u.unit0.Resting? && u.unit1.Resting?
    ensures Idle(p, w, FinalizeBatch(u, error, code, u.jobsCompleted).(abort := error))
  {
  }

  lemma AllFinished(u: Regs, finished: set<nat>, scheduled: nat)
    requires Partition(u, finished)
    requires |finished| == scheduled && u.nextLoadJobIndex <= scheduled
    ensures finished == Upto(scheduled) && !u.slot0.busy && !u.slot1.busy
  {
    hide Upto;
    SplitFits(finished, In(u.slot0), In(u.slot1), Ahead(u.load), u.nextLoadJobIndex);
    Smaller(finished, Upto(u.nextLoadJobIndex));
    assert u.slot0.busy ==> u.slot0.jobIndex in In(u.slot0);
    assert u.slot1.busy ==> u.slot1.jobIndex in In(u.slot1);
  }

  lemma AllVerdicts(w: World, u: Regs, b: Batch, finished: set<nat>)
    requires MaskHolds(w, u.resultMask, finished) && finished == Upto(u.scheduled) && u.scheduled <= MASK_BITS
    requires u.accepted == u.scheduled == u.batchCompleted == DispatchJobCount(b.config)
    requires JOB_WORDS * u.accepted <= |w.jobs|
    requires u.jobsCompleted == (b.completedBefore + u.batchCompleted) % TWO_32
    requires u.jobsDropped == (b.droppedBefore + (b.config.requestedJobCount - u.accepted)) % TWO_32
    ensures Complete(w, FinalizeBatch(u, false, ERR_NONE, u.jobsCompleted), b)
  {
    hide Job, DispatchJobCount, Upto;
    forall i | 0 <= i < u.accepted ensures u.resultMask[i] == w.verdict(Job(w, i)) {
      assert i in finished;
    }
    forall i | u.accepted <= i < MASK_BITS ensures !u.resultMask[i] {
      assert i !in finished;
    }
  }
}
