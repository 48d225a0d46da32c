/**
 * The batch core as clocked hardware (sigv_kv260_core.v): one register file, changed by a per-cycle step
 * and the procedures it calls.
 */
module BatchCore {
  import opened BatchSpec

  class Core {
    const params: Params
    var r: Regs

    constructor (p: Params)
      ensures params == p && r == ResetRegs()
    {
      params, r := p, ResetRegs();
    }

    method ClearLiveState(clearCounters: bool)
      modifies this
      ensures r == BatchSpec.ClearLiveState(old(r), clearCounters)
    {
      r := r.(running := false, load := LoadRegs(LdIdle, ZeroRecord(), 0, false, 0, 0, r.load.dout));
      r := r.(busy := false, done := false, error := false, resultValid := false, errorCode := ERR_NONE);
      r := r.(resultMask := seq(MASK_BITS, _ => false), accepted := 0, currentJobIndex := 0);
      r := r.(slot0 := EmptySlot(), slot1 := EmptySlot());
      r := r.(scheduled := 0, batchCompleted := 0, nextLoadJobIndex := 0, nextLoadWordBase := 0);
      if clearCounters {
        r := r.(jobsStarted := 0, jobsCompleted := 0, jobsDropped := 0);
      }
    }

    method LatchSnapshot(id: nat, accepted: nat, completed: nat, dropped: nat, error: bool, valid: bool, code: nat)
      modifies this
      ensures r == old(r).(snapshot := Snapshot(id, accepted, completed, dropped, error, valid, code))
    {
      r := r.(snapshot := Snapshot(id, accepted, completed, dropped, error, valid, code));
    }

    method KickLoader(wordBase: nat)
      modifies this
      ensures r == old(r).(load := BatchSpec.KickLoader(old(r).load, wordBase))
    {
      r := r.(load := r.load.(wordBase := wordBase, wordIndex := 0, state := LdReq, shadow := ZeroRecord()));
    }

    method FinalizeBatch(error: bool, code: nat, completed: nat)
      modifies this
      ensures r == BatchSpec.FinalizeBatch(old(r), error, code, completed)
      ensures r.done && r.resultValid && !r.busy && !r.running && r.error == error && r.errorCode == code
      ensures !r.slot0.busy && !r.slot1.busy && r.load.state == LdIdle && !r.load.valid
      ensures r.snapshot == Snapshot(r.batchId, r.accepted, completed, r.jobsDropped, error, true, code)
      ensures r.resultMask == old(r).resultMask && r.batchId == old(r).batchId && r.accepted == old(r).accepted
      ensures r.jobsCompleted == old(r).jobsCompleted && r.jobsDropped == old(r).jobsDropped
    {
      r := r.(busy := false, done := true, error := error, resultValid := true, errorCode := code);
      r := r.(slot0 := r.slot0.(busy := false, cycles := 0), slot1 := r.slot1.(busy := false, cycles := 0));
      r := r.(load := r.load.(valid := false, state := LdIdle), running := false);
      LatchSnapshot(r.batchId, r.accepted, completed, r.jobsDropped, error, true, code);
    }

    /** The launch checks in order, then the start of the first load. */
    method LaunchBatch(c: Config, clearCounters: bool)
      modifies this
      ensures r == BatchSpec.LaunchBatch(params, old(r), c, clearCounters)
      ensures r.batchId == (old(r).batchId + 1) % TWO_32
      ensures c.messageLength > params.maxMessageBytes ==> r.done && r.errorCode == ERR_MESSAGE_LEN
      ensures c.messageLength <= params.maxMessageBytes && !(1 <= c.requestedJobCount <= MAX_JOB_COUNT) ==>
        r.done && r.errorCode == ERR_JOB_COUNT
      ensures c.messageLength <= params.maxMessageBytes && 1 <= c.requestedJobCount <= MAX_JOB_COUNT ==>
        if Within(c) * 96 > params.jobRamDepth then r.done && r.errorCode == ERR_JOB_RANGE else r.busy && r.accepted == Within(c)
      ensures r.busy <==> LaunchError(params, c) == ERR_NONE
      ensures r.busy <==> !r.done
      ensures !r.busy ==> r.error && r.accepted == 0 && r.snapshot == Snapshot(r.batchId, 0, 0, 0, true, false, r.errorCode)
      ensures r.busy ==> 1 <= r.accepted == r.scheduled <= c.requestedJobCount && r.nextLoadJobIndex == 1
      ensures r.busy ==> r.load.state == LdReq && r.load.wordBase == r.load.wordIndex == r.load.jobIndex == 0
      ensures r.busy && clearCounters ==> r.accepted + r.jobsDropped == c.requestedJobCount
    {
      LaunchFacts(params, r, c, clearCounters);
      hide BatchSpec.ClearLiveState, DispatchJobCount;
      var launchId := (r.batchId + 1) % TWO_32;
      ClearLiveState(clearCounters);
      r := r.(batchId := launchId);
      var n := DispatchJobCount(c);
      if c.messageLength > params.maxMessageBytes {
        Reject(launchId, ERR_MESSAGE_LEN);
      } else if c.requestedJobCount == 0 || c.requestedJobCount > MAX_JOB_COUNT {
        Reject(launchId, ERR_JOB_COUNT);
      } else if n * 96 > params.jobRamDepth {
        Reject(launchId, ERR_JOB_RANGE);
      } else {
        DispatchWithin(c);
        r := r.(busy := true, accepted := n, scheduled := n, nextLoadJobIndex := 1, nextLoadWordBase := JOB_WORDS);
        r := r.(jobsDropped := (r.jobsDropped + (c.requestedJobCount % TWO_8 - n)) % TWO_32);
        KickLoader(0);
        r := r.(running := true);
      }
    }

    method Reject(launchId: nat, code: nat)
      modifies this
      ensures r == Rejected(old(r), launchId, code)
    {
      r := r.(done := true, error := true, errorCode := code);
      LatchSnapshot(launchId, 0, 0, 0, true, false, code);
    }

    method LoaderCycle(w: World)
      modifies this
      ensures r == old(r).(load := BatchSpec.LoaderCycle(old(r).load, w))
    {
      var l := r.load;
      match l.state {
        case LdIdle =>
        case LdReq =>
          var address := l.wordBase + l.wordIndex;
          if address < |w.jobs| {
            l := l.(dout := w.jobs[address]);
          }
          l := l.(state := LdWait);
        case LdWait => l := l.(state := LdCapture);
        case LdCapture =>
          l := l.(shadow := Capture(l.shadow, l.wordIndex, l.dout));
          if l.wordIndex == JOB_WORDS - 1 {
            l := l.(state := LdIdle, valid := true);
          } else {
            l := l.(wordIndex := l.wordIndex + 1, state := LdReq);
          }
      }
      r := r.(load := l);
    }

    /** The pulses and the engines move with every edge. */
    method Edge(i: Input, w: World)
      modifies this
      ensures r == BatchSpec.Edge(old(r), i, w)
    {
      var next0 := UnitNext(r.unit0, r.abort, r.slot0, i.finish0, w);
      var next1 := UnitNext(r.unit1, r.abort, r.slot1, i.finish1, w);
      r := r.(unit0 := next0, unit1 := next1, abort := false);
      r := r.(slot0 := r.slot0.(startPulse := false), slot1 := r.slot1.(startPulse := false));
    }

    /** Completion handling; `was` is the state the edge saw. */
    method RecordResults(was: Regs)
      modifies this
      requires was.resultMask == r.resultMask && was.jobsCompleted == r.jobsCompleted && was.batchCompleted == r.batchCompleted
      ensures r == old(r).(resultMask := MaskNext(params, was),
        slot0 := Free(old(r).slot0, Event0(was)), slot1 := Free(old(r).slot1, Event1(params, was)),
        jobsCompleted := (was.jobsCompleted + Events(params, was)) % TWO_32,
        batchCompleted := (was.batchCompleted + Events(params, was)) % TWO_8)
    {
      hide SetBit;
      var completed, batch := r.jobsCompleted, r.batchCompleted;
      if was.slot0.busy && was.unit0.Reporting? {
        r := r.(resultMask := SetBit(r.resultMask, was.slot0, was.unit0), slot0 := r.slot0.(busy := false, cycles := 0));
        completed, batch := completed + 1, batch + 1;
      }
      if params.engines > 1 && was.slot1.busy && was.unit1.Reporting? {
        r := r.(resultMask := SetBit(r.resultMask, was.slot1, was.unit1), slot1 := r.slot1.(busy := false, cycles := 0));
        completed, batch := completed + 1, batch + 1;
      }
      r := r.(jobsCompleted := completed % TWO_32, batchCompleted := batch % TWO_8);
    }

    /** Hand the shadow record to a free engine, engine 0 first, and kick the loader for the next job. */
    method DispatchShadow(was: Regs)
      modifies this
      ensures r == Dispatch(params, was, old(r))
    {
      hide Fill, Event0, Event1, BatchSpec.StartNextLoad;
      var happened := false;
      if was.load.valid {
        if !was.slot0.busy || Event0(was) {
          r, happened := r.(slot0 := Fill(r.slot0, was)), true;
        } else if params.engines > 1 && (!was.slot1.busy || Event1(params, was)) {
          r, happened := r.(slot1 := Fill(r.slot1, was)), true;
        }
        if happened {
          StartNextLoad(was);
        }
      }
    }

    /** After a hand-over: the shadow register is empty, and the next job, if any, starts loading. */
    method StartNextLoad(was: Regs)
      modifies this
      ensures r == BatchSpec.StartNextLoad(was, old(r))
    {
      hide BatchSpec.KickLoader;
      var started := (was.jobsStarted + 1) % TWO_32;
      r := r.(load := r.load.(valid := false), jobsStarted := started, currentJobIndex := was.load.jobIndex);
      if was.nextLoadJobIndex < was.scheduled {
        KickLoader(was.nextLoadWordBase);
        r := r.(load := r.load.(jobIndex := was.nextLoadJobIndex),
          nextLoadJobIndex := was.nextLoadJobIndex + 1, nextLoadWordBase := was.nextLoadWordBase + JOB_WORDS);
      }
    }

    /** ST_RUN. */
    method RunState(was: Regs, i: Input, ghost w: World)
      requires r == Moved(params, was, i, w)
      modifies this
      ensures r == RunCycle(params, was, i, w)
    {
      hide UnitNext, Dispatch, BatchSpec.LoaderCycle, Event0, Event1, Count, DoneEvent, MaskNext;
      hide BatchSpec.FinalizeBatch, Timeout, Free;
      RecordResults(was);
      if Timeout(params, was, i.config) {
        FinalizeBatch(true, ERR_JOB_TIMEOUT, r.jobsCompleted);
        r := r.(abort := true);
      } else if r.batchCompleted == r.scheduled {
        FinalizeBatch(false, ERR_NONE, r.jobsCompleted);
      } else {
        DispatchShadow(was);
      }
    }

    /** One clock edge. */
    method Clock(i: Input, w: World)
      modifies this
      ensures r == Next(params, old(r), i, w)
    {
      hide UnitNext, BatchSpec.LoaderCycle, BatchSpec.LaunchBatch, BatchSpec.ClearLiveState, RunCycle, Count;
      var was := r;
      Edge(i, w);
      if i.softReset && i.start {
        r := r.(abort := true);
        LaunchBatch(i.config, true);
      } else if i.softReset {
        r := r.(abort := true);
        ClearLiveState(true);
      } else {
        r := r.(slot0 := Count(was.slot0));
        if params.engines > 1 {
          r := r.(slot1 := Count(was.slot1));
        }
        LoaderCycle(w);
        if r.running {
          RunState(was, i, w);
        } else if i.start {
          LaunchBatch(i.config, false);
        }
      }
    }
  }

  /** Which check a launch fails, and what an accepted one starts with. */
  /** The requested jobs, or the dispatch limit when there is a smaller one. */
  function Within(c: Config): nat {
    if 0 < c.dispatchLimit < c.requestedJobCount then c.dispatchLimit else c.requestedJobCount
  }

  lemma LaunchFacts(p: Params, s: Regs, c: Config, clearCounters: bool)
    ensures var t := LaunchBatch(p, s, c, clearCounters);
      && t.batchId == (s.batchId + 1) % TWO_32
      && (c.messageLength > p.maxMessageBytes ==> t.done && t.errorCode == ERR_MESSAGE_LEN)
      && (c.messageLength <= p.maxMessageBytes && !(1 <= c.requestedJobCount <= MAX_JOB_COUNT) ==>
        t.done && t.errorCode == ERR_JOB_COUNT)
      && (c.messageLength <= p.maxMessageBytes && 1 <= c.requestedJobCount <= MAX_JOB_COUNT ==>
        if Within(c) * 96 > p.jobRamDepth then t.done && t.errorCode == ERR_JOB_RANGE else t.busy && t.accepted == Within(c))
      && (t.busy <==> LaunchError(p, c) == ERR_NONE) && (t.busy <==> !t.done)
      && (!t.busy ==> t.error && t.accepted == 0 && t.snapshot == Snapshot(t.batchId, 0, 0, 0, true, false, t.errorCode))
      && (t.busy ==> 1 <= t.accepted == t.scheduled <= c.requestedJobCount && t.nextLoadJobIndex == 1)
      && (t.busy ==> t.load.state == LdReq && t.load.wordBase == t.load.wordIndex == t.load.jobIndex == 0)
      && (t.busy && clearCounters ==> t.accepted + t.jobsDropped == c.requestedJobCount)
  {
    DispatchWithin(c);
    hide DispatchJobCount;
  }

  lemma DispatchWithin(c: Config)
    ensures DispatchJobCount(c) <= c.requestedJobCount % TWO_8
    ensures 1 <= c.requestedJobCount <= MAX_JOB_COUNT ==> 1 <= DispatchJobCount(c) == Within(c) <= c.requestedJobCount
  {
  }
}
