/** From the two pods' findings to what a cycle writes and runs. */
module SiCycle {
  import opened CyclePolicy
  import AxisScorer
  import ApplyLadder
  import CandidateGate

  function Outcome(g: AxisScorer.Gates, inputs: AxisScorer.Inputs, c: CandidateGate.Config, i: CandidateGate.Proposal,
                   w: CandidateGate.World, lw: ApplyLadder.World): CandidateGate.Ended
  {
    CandidateGate.CycleOf(c, i, AxisScorer.StatusOf(g, inputs), w, lw)
  }

  /** With the eligibility and diagnosis gates on, no real write and no authorised command comes from silence. */
  ghost predicate NothingFromSilence(g: AxisScorer.Gates, inputs: AxisScorer.Inputs, c: CandidateGate.Config,
                                     result: ApplyLadder.Result)
  {
    g.eligibility && g.wired && (result.live || (c.ladder.executionAuthority && result.ran != []))
    ==> !inputs.aDefaulted && !inputs.bDefaulted && AxisScorer.SharedSignal(g, inputs.a, inputs.b)
  }

  /** The status decision, the verify gate, the ladder and the confirmation, one after another. */
  method RunOneCycle(g: AxisScorer.Gates, inputs: AxisScorer.Inputs, c: CandidateGate.Config, i: CandidateGate.Proposal,
                     w: CandidateGate.World, lw: ApplyLadder.World)
    returns (status: SiStatus, out: CandidateGate.Ended)
    ensures status == AxisScorer.StatusOf(g, inputs) && out == Outcome(g, inputs, c, i, w, lw)
    ensures NothingFromSilence(g, inputs, c, out.result)
  {
    SilenceDoesNothing(g, inputs, c, i, w, lw);
    status := AxisScorer.DecideStatus(g, inputs);
    out := CandidateGate.RunCycle(c, i, status, w, lw);
  }

  /**
   No real write from silence: the self-modification session runs for real only when both
   pods really reported, and some base axis shows the same token in both reports.
   */
  lemma {:induction false} RealWriteNeedsSharedSignal(g: AxisScorer.Gates, inputs: AxisScorer.Inputs,
                                                      c: CandidateGate.Config, i: CandidateGate.Proposal,
                                                      w: CandidateGate.World, lw: ApplyLadder.World)
    requires g.eligibility && g.wired
    requires Outcome(g, inputs, c, i, w, lw).result.live
    ensures c.ladder.writeOn && !inputs.aDefaulted && !inputs.bDefaulted
    ensures AxisScorer.SharedSignal(g, inputs.a, inputs.b)
  {
    LiveMeansAgreed(c, i, AxisScorer.StatusOf(g, inputs), w, lw);
    ConsensusIsReal(g, inputs);
    AxisScorer.NoVacuousConsensus(g, inputs);
  }

  lemma LiveMeansAgreed(c: CandidateGate.Config, i: CandidateGate.Proposal, status: SiStatus,
                        w: CandidateGate.World, lw: ApplyLadder.World)
    requires CandidateGate.CycleOf(c, i, status, w, lw).result.live
    ensures c.ladder.writeOn && status.Consensus?
  {
  }

  lemma ConsensusIsReal(g: AxisScorer.Gates, inputs: AxisScorer.Inputs)
    requires AxisScorer.StatusOf(g, inputs).Consensus?
    ensures !inputs.aDefaulted && !inputs.bDefaulted
  {
  }

  /** Nor a command: with execution authority on, running one needs the same shared signal. */
  lemma {:induction false} CommandNeedsSharedSignal(g: AxisScorer.Gates, inputs: AxisScorer.Inputs,
                                                    c: CandidateGate.Config, i: CandidateGate.Proposal,
                                                    w: CandidateGate.World, lw: ApplyLadder.World, x: string)
    requires g.eligibility && g.wired && c.ladder.executionAuthority
    requires x in Outcome(g, inputs, c, i, w, lw).result.ran
    ensures !inputs.aDefaulted && !inputs.bDefaulted && AxisScorer.SharedSignal(g, inputs.a, inputs.b)
  {
    var status := AxisScorer.StatusOf(g, inputs);
    var p := CandidateGate.GateOf(c, i, w);
    ApplyLadder.RunCommandsAuthorized(c.ladder, CandidateGate.JobOf(c, i, status, p), c.digest, lw, x);
    ConsensusIsReal(g, inputs);
    AxisScorer.NoVacuousConsensus(g, inputs);
  }

  lemma {:induction false} SilenceDoesNothing(g: AxisScorer.Gates, inputs: AxisScorer.Inputs, c: CandidateGate.Config,
                                              i: CandidateGate.Proposal, w: CandidateGate.World, lw: ApplyLadder.World)
    ensures NothingFromSilence(g, inputs, c, Outcome(g, inputs, c, i, w, lw).result)
  {
    var r := Outcome(g, inputs, c, i, w, lw).result;
    if g.eligibility && g.wired && r.live { RealWriteNeedsSharedSignal(g, inputs, c, i, w, lw); }
    if g.eligibility && g.wired && c.ladder.executionAuthority && r.ran != [] {
      CommandNeedsSharedSignal(g, inputs, c, i, w, lw, r.ran[0]);
    }
  }
}
