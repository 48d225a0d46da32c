/**
 * From the bytes of a request to the signature equation: what an engine is asked for each job, and
 * what a result bit of the daemon means.
 */
module EndToEnd {
  import opened Bits
  import Daemon
  import Payload
  import Sha512Stream
  import CurveGroup
  import Verdict

  const MESSAGE_ADDR_WIDTH: nat := 12

  /** The request the engine sees for job j: its three 256-bit registers, and the message memory. */
  function EngineRequest(q: Daemon.Request, j: Payload.Job): Verdict.Request
    requires |j.pubkey| == 32 && |j.signature| == 64
  {
    var r := Payload.RecordOf(j);
    Verdict.Request(Value(Payload.TWO_32, r.pubkey), Value(Payload.TWO_32, r.sigR), Value(Payload.TWO_32, r.sigS),
      Daemon.RegisterBits(q.mode), Payload.Layout(q.message, 1024), |q.message|)
  }

  /** The engine hashes R, A and the message, byte for byte, and reads all three numbers little-endian. */
  lemma EngineInput(q: Daemon.Request, j: Payload.Job)
    requires Payload.IsJob(j) && Below(q.message, 256) && |q.message| <= Daemon.MESSAGE_SIZE
    ensures var e := EngineRequest(q, j);
      && e.pubkey == Value(256, j.pubkey) && e.sigR == Value(256, j.signature[..32]) && e.sigS == Value(256, j.signature[32..])
      && e.length <= 4 * |e.memory| == 4096
      && Sha512Stream.Input(Verdict.HashJob(e)) == j.signature[..32] + (j.pubkey + q.message)
      && (Verdict.Strict(e) <==> q.mode == Daemon.Strict)
  {
    hide Value, Digits, Payload.Layout, Payload.Lanes, Sha512Stream.MessageFrom;
    Payload.LanesNumber(j.pubkey);
    Payload.LanesNumber(j.signature[..32]);
    Payload.LanesNumber(j.signature[32..]);
    DigitsOfValue(256, j.pubkey);
    DigitsOfValue(256, j.signature[..32]);
    var e := EngineRequest(q, j);
    Payload.MessageBack(q.message, 1024, e.sigR, e.pubkey);
  }

  lemma MemorySize()
    ensures Pow2(MESSAGE_ADDR_WIDTH) == 4096
  {
  }

  /** The signature of job j verifies under its key over the message of the request. */
  ghost predicate Verifies(q: Daemon.Request, j: Payload.Job)
    requires Payload.IsJob(j)
  {
    MemorySize();
    CurveGroup.IsValid(EngineRequest(q, j), MESSAGE_ADDR_WIDTH)
  }

  /** An engine run on job j decides as the verification equation does. */
  ghost predicate Decides(judge: Daemon.System.Judge, q: Daemon.Request, j: Payload.Job) {
    && Payload.IsJob(j)
    && judge(Payload.Layout(q.message, 1024), |q.message|, Daemon.RegisterBits(q.mode), Payload.RecordOf(j)) == Verifies(q, j)
  }

  /**
   * When the engine runs on the jobs of a request decide as the verification equation does, a result
   * without error says, for every accepted job, whether its signature verifies.
   */
  lemma ResultBitsAreVerdicts(judge: Daemon.System.Judge, q: Daemon.Request, result: Daemon.BatchResult, i: nat)
    requires Daemon.WellTyped(q) && Daemon.Refusal(q).Proceed?
    requires Daemon.Reports(judge, q, result) && !result.error && i < |result.resultBits|
    requires forall k :: 0 <= k < |q.jobs| ==> Decides(judge, q, q.jobs[k])
    ensures i < |q.jobs| && Payload.IsJob(q.jobs[i])
    ensures result.resultBits[i] <==> Verifies(q, q.jobs[i])
  {
    hide Verifies, Payload.RecordOf, Payload.Layout;
    assert Decides(judge, q, q.jobs[i]);
  }
}
