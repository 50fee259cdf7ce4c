/** The bounded recovery chain: how many retries, and what ends it. */
module RetryChain {
  import opened Wrappers

  datatype Action = Retry | Replan | Decompose | Escalate

  datatype State = State(repeatCount: int, retryCount: int, maxRetry: int, elapsedS: real, openTaskCount: int)

  datatype Decision = Decision(action: Action, repeatCount: nat, retryCount: nat, maxRetry: nat, elapsedS: real)

  const DECOMPOSE_FAILURE_THRESHOLD := 5
  const DECOMPOSE_AFTER_S := 10800.0
  const REPEATED_FAILURE_THRESHOLD := 3

  function NotNegative(i: int): nat { if i < 0 then 0 else i }

  /** The cheapest safe action; every counter is read as at least zero. */
  function DecideRecovery(enabled: bool, s: State): Decision {
    var repeats, retries, budget := NotNegative(s.repeatCount), NotNegative(s.retryCount), NotNegative(s.maxRetry);
    var elapsed := if s.elapsedS < 0.0 then 0.0 else s.elapsedS;
    var openTasks := NotNegative(s.openTaskCount);
    var action :=
      if !enabled then Retry
      else if repeats >= DECOMPOSE_FAILURE_THRESHOLD then Decompose
      else if elapsed >= DECOMPOSE_AFTER_S && openTasks != 0 then Decompose
      else if repeats >= REPEATED_FAILURE_THRESHOLD then Replan
      else if budget != 0 && retries >= budget then (if openTasks != 0 then Replan else Escalate)
      else Retry;
    Decision(action, repeats, retries, budget, elapsed)
  }

  /** What the counters that no retry changes already call for. */
  function AtOnce(s: State): Option<Action> {
    if s.repeatCount >= 5 then Some(Decompose)
    else if s.elapsedS >= 10800.0 && s.openTaskCount > 0 then Some(Decompose)
    else if s.repeatCount >= 3 then Some(Replan)
    else None
  }

  /** How many retries come before another action; None when none ever comes. */
  function Retries(enabled: bool, s: State): Option<nat> {
    if !enabled then None
    else if AtOnce(s).Some? then Some(0)
    else if s.maxRetry <= 0 then None
    else Some(NotNegative(s.maxRetry - s.retryCount))
  }

  function Ending(s: State): Action {
    if AtOnce(s).Some? then AtOnce(s).value else if s.openTaskCount > 0 then Replan else Escalate
  }

  function After(s: State, k: nat): State { s.(retryCount := s.retryCount + k) }

  /** The k-th decision of a chain: a retry, until the number of retries is used up. */
  lemma DecisionAt(enabled: bool, s: State, k: nat)
    requires Retries(enabled, s).Some? ==> k <= Retries(enabled, s).value
    ensures var d := DecideRecovery(enabled, After(s, k));
            && d.retryCount == NotNegative(s.retryCount + k)
            && d.action == if Retries(enabled, s) == Some(k) then Ending(s) else Retry
  {
  }

  function Bound(maxIterations: int): nat { if maxIterations < 1 then 1 else maxIterations }

  /**
   The trail in closed form, for all counters, negative ones too: retries, then at most
   one other action, cut at the bound.
   */
  method ChainToTermination(enabled: bool, initial: State, maxIterations: int) returns (trail: seq<Decision>)
    ensures var retries, bound := Retries(enabled, initial), if maxIterations > 1 then maxIterations else 1;
            && |trail| == (if retries.Some? && retries.value < bound then retries.value + 1 else bound)
            && (forall k :: 0 <= k < |trail| ==>
                  && trail[k].retryCount == NotNegative(initial.retryCount + k)
                  && trail[k].action == if retries == Some(k) then Ending(initial) else Retry)
  {
    trail := [];
    var state := initial;
    ghost var retries := Retries(enabled, initial);
    for i := 0 to Bound(maxIterations)
      invariant |trail| == i && state == After(initial, i)
      invariant retries.Some? ==> i <= retries.value
      invariant forall k :: 0 <= k < i ==>
                  trail[k].retryCount == NotNegative(initial.retryCount + k) && trail[k].action.Retry?
    {
      DecisionAt(enabled, initial, i);
      var decision := DecideRecovery(enabled, state);
      trail := trail + [decision];
      if decision.action != Retry { break; }
      state := state.(retryCount := state.retryCount + 1);
    }
  }
}
