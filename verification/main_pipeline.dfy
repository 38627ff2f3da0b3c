/** The command-line entry point: five steps run straight through with no
    retries, a dependency check, and the process exit status.  What each
    step does is left to the other modules; here a step either completes or
    raises, as its oracle says. */
module MainScript {
  import Sequences

  datatype Step = LoadData | Preprocess | Train | Evaluate | Upload

  /** The steps of `run_complete_pipeline`, in the order it runs them. */
  const PipelineSteps: seq<Step> := [LoadData, Preprocess, Train, Evaluate, Upload]

  /** `run_complete_pipeline`: runs the steps in order, each at most once;
      the first step that raises ends the run, which then returns false.
      `invoked` is the log of steps started. */
  method RunCompletePipeline(stepSucceeds: Step -> bool) returns (success: bool, invoked: seq<Step>)
    ensures invoked <= PipelineSteps
    ensures forall i, j :: 0 <= i < j < |invoked| ==> invoked[i] != invoked[j]
    ensures forall i :: 0 <= i < |invoked| - 1 ==> stepSucceeds(invoked[i])
    ensures success <==> invoked == PipelineSteps && forall i :: 0 <= i < |invoked| ==> stepSucceeds(invoked[i])
    ensures !success ==> |invoked| > 0 && !stepSucceeds(invoked[|invoked| - 1])
    ensures success <==> forall i :: 0 <= i < |PipelineSteps| ==> stepSucceeds(PipelineSteps[i])
  {
    invoked := [];
    var i := 0;
    while i < |PipelineSteps|
      invariant 0 <= i <= |PipelineSteps|
      invariant invoked == PipelineSteps[..i]
      invariant forall j :: 0 <= j < i ==> stepSucceeds(PipelineSteps[j])
    {
      var step := PipelineSteps[i];
      invoked := invoked + [step];
      if !stepSucceeds(step) {
        return false, invoked;
      }
      i := i + 1;
    }
    success := true;
  }

  /** The modules `check_dependencies` imports, in order. */
  const RequiredModules: seq<string> := ["pandas", "numpy", "sklearn", "joblib"]

  /** `check_dependencies`: tries every module (a missing one does not stop
      the check), collects the missing ones in order, and passes exactly
      when none is missing. */
  method CheckDependencies(installed: string -> bool) returns (ok: bool, checked: seq<string>, missing: seq<string>)
    ensures checked == RequiredModules
    ensures missing == Sequences.Filter(m => !installed(m), RequiredModules)
    ensures forall m :: m in missing <==> m in RequiredModules && !installed(m)
    ensures ok <==> |missing| == 0
    ensures ok <==> forall i :: 0 <= i < |RequiredModules| ==> installed(RequiredModules[i])
  {
    checked := [];
    missing := [];
    var i := 0;
    while i < |RequiredModules|
      invariant 0 <= i <= |RequiredModules|
      invariant checked == RequiredModules[..i]
      invariant missing == Sequences.Filter(m => !installed(m), RequiredModules[..i])
    {
      var name := RequiredModules[i];
      checked := checked + [name];
      if !installed(name) {
        missing := missing + [name];
      }
      Sequences.FilterAppend(m => !installed(m), RequiredModules[..i], name);
      assert RequiredModules[..i + 1] == RequiredModules[..i] + [name];
      i := i + 1;
    }
    assert RequiredModules[..i] == RequiredModules;
    ok := |missing| == 0;
  }

  /** `main`: exit status 1 when a dependency is missing or the data file is
      absent (both before any step runs), when creating the "results" or
      "logs" directory raises (outside any handler, so the interpreter
      exits with status 1 before any step runs), or when the pipeline
      fails; otherwise the process ends normally with status 0. */
  method RunMain(installed: string -> bool, dataFileExists: bool, directoriesCreated: bool, stepSucceeds: Step -> bool)
    returns (exitCode: int, invoked: seq<Step>)
    ensures exitCode == 0 || exitCode == 1
    ensures exitCode == 0 <==>
      && (forall i :: 0 <= i < |RequiredModules| ==> installed(RequiredModules[i]))
      && dataFileExists
      && directoriesCreated
      && (forall i :: 0 <= i < |PipelineSteps| ==> stepSucceeds(PipelineSteps[i]))
    ensures !(forall i :: 0 <= i < |RequiredModules| ==> installed(RequiredModules[i])) ==> invoked == []
    ensures !dataFileExists ==> invoked == []
    ensures !directoriesCreated ==> invoked == []
    ensures invoked <= PipelineSteps
  {
    var depsOk, _, _ := CheckDependencies(installed);
    if !depsOk {
      return 1, [];
    }
    if !dataFileExists {
      return 1, [];
    }
    if !directoriesCreated {
      return 1, [];
    }
    var success;
    success, invoked := RunCompletePipeline(stepSucceeds);
    exitCode := if success then 0 else 1;
  }
}
