/** Sequential stage execution with a bounded retry policy: the behaviour
    the scheduler gives a strictly linear chain of tasks configured with
    `retries`.  The scheduler's engine is not part of the repository; this
    module states what its configuration asks of it: each stage gets one
    original attempt plus `retries` retries, stages run one after another,
    and no stage starts once an earlier one has failed for good. */
module Orchestrator {

  /** What became of one stage in a run. */
  datatype StageState =
    | Succeeded(attempts: nat)   // some attempt succeeded; `attempts` were made
    | Failed(attempts: nat)      // every allowed attempt raised
    | Skipped                    // never started: an upstream stage failed

  /** Attempts `k`, `k+1`, ... of `stage`, up to attempt number `retries`
      (attempts are numbered from 0, the original attempt). */
  function AttemptsFrom<S>(succeeds: (S, nat) -> bool, stage: S, k: nat, retries: nat): (s: StageState)
    requires k <= retries
    ensures s.Succeeded? || s.Failed?
    ensures s.Failed? <==> forall a :: k <= a <= retries ==> !succeeds(stage, a)
    ensures s.Failed? ==> s.attempts == retries + 1
    ensures s.Succeeded? ==>
      && k < s.attempts <= retries + 1
      && succeeds(stage, s.attempts - 1)
      && forall a :: k <= a < s.attempts - 1 ==> !succeeds(stage, a)
    decreases retries - k
  {
    if succeeds(stage, k) then Succeeded(k + 1)
    else if k == retries then Failed(retries + 1)
    else AttemptsFrom(succeeds, stage, k + 1, retries)
  }

  /** One stage under the policy: retried until an attempt succeeds or
      `retries` retries have been spent. */
  function Attempts<S>(succeeds: (S, nat) -> bool, stage: S, retries: nat): (s: StageState)
    ensures s.Succeeded? || s.Failed?
    ensures s.Failed? <==> forall a :: 0 <= a <= retries ==> !succeeds(stage, a)
    ensures s.Failed? ==> s.attempts == retries + 1
    ensures s.Succeeded? ==>
      && 1 <= s.attempts <= retries + 1
      && succeeds(stage, s.attempts - 1)
      && forall a :: 0 <= a < s.attempts - 1 ==> !succeeds(stage, a)
  {
    AttemptsFrom(succeeds, stage, 0, retries)
  }

  /** The waiting time spent in back-off before the stage's last attempt. */
  function BackoffMinutes(s: StageState, delayMinutes: nat): nat {
    match s
    case Succeeded(n) => if n == 0 then 0 else (n - 1) * delayMinutes
    case Failed(n) => if n == 0 then 0 else (n - 1) * delayMinutes
    case Skipped => 0
  }

  function Skips(n: nat): (r: seq<StageState>)
    ensures |r| == n
    ensures forall i :: 0 <= i < n ==> r[i] == Skipped
  {
    seq(n, i => Skipped)
  }

  /** A run of the stages, in order. */
  function RunStages<S>(stages: seq<S>, succeeds: (S, nat) -> bool, retries: nat): (states: seq<StageState>)
    ensures |states| == |stages|
    // a stage starts only once every earlier stage has succeeded
    ensures forall i :: 0 <= i < |states| && !states[i].Skipped? ==>
      forall j :: 0 <= j < i ==> states[j].Succeeded?
    // once a stage has failed for good, no later stage starts
    ensures forall i, j :: 0 <= j < i < |states| && states[j].Failed? ==> states[i].Skipped?
    // a stage that starts is run under the retry policy
    ensures forall i :: 0 <= i < |states| && !states[i].Skipped? ==>
      states[i] == Attempts(succeeds, stages[i], retries)
    // the first stage always starts
    ensures |stages| > 0 ==> !states[0].Skipped?
    decreases |stages|
  {
    if |stages| == 0 then []
    else
      var first := Attempts(succeeds, stages[0], retries);
      if first.Failed? then [first] + Skips(|stages| - 1)
      else [first] + RunStages(stages[1..], succeeds, retries)
  }

  predicate RunSucceeded(states: seq<StageState>) {
    forall i :: 0 <= i < |states| ==> states[i].Succeeded?
  }

  /** Some attempt the policy allows succeeds. */
  predicate Recoverable<S>(succeeds: (S, nat) -> bool, stage: S, retries: nat) {
    exists a :: 0 <= a <= retries && succeeds(stage, a)
  }

  /** A run succeeds exactly when every stage succeeds within its attempts. */
  lemma {:induction false} RunSucceededIff<S>(stages: seq<S>, succeeds: (S, nat) -> bool, retries: nat)
    ensures RunSucceeded(RunStages(stages, succeeds, retries)) <==>
      forall i :: 0 <= i < |stages| ==> Recoverable(succeeds, stages[i], retries)
    decreases |stages|
  {
    var states := RunStages(stages, succeeds, retries);
    if |stages| > 0 {
      var tail := stages[1..];
      RunSucceededIff(tail, succeeds, retries);
      var first := Attempts(succeeds, stages[0], retries);
      if first.Failed? {
        assert !states[0].Succeeded?;
        assert !Recoverable(succeeds, stages[0], retries);
      } else {
        var rest := RunStages(tail, succeeds, retries);
        assert states == [first] + rest;
        assert Recoverable(succeeds, stages[0], retries) by {
          assert succeeds(stages[0], first.attempts - 1);
        }
        assert forall i :: 0 <= i < |tail| ==> tail[i] == stages[i + 1] && rest[i] == states[i + 1];
      }
    }
  }

  /** A stage is reached when every stage before it can succeed within its
      attempts. */
  lemma {:induction false} RunReaches<S>(stages: seq<S>, succeeds: (S, nat) -> bool, retries: nat, i: nat)
    requires i < |stages|
    requires forall j :: 0 <= j < i ==> Recoverable(succeeds, stages[j], retries)
    ensures !RunStages(stages, succeeds, retries)[i].Skipped?
    decreases i
  {
    if i > 0 {
      assert Recoverable(succeeds, stages[0], retries);
      var a :| 0 <= a <= retries && succeeds(stages[0], a);
      assert !Attempts(succeeds, stages[0], retries).Failed?;
      assert forall j :: 0 <= j < i - 1 ==> stages[1..][j] == stages[j + 1];
      RunReaches(stages[1..], succeeds, retries, i - 1);
    }
  }
}
