/** The scheduled pipeline: six tasks in a strict chain, the retry policy
    of the default arguments, the storage configuration the upload task
    builds from the environment, the files each task reads and writes, and
    the summary the last task records.

    Every task body logs and re-raises whatever it catches, so an attempt
    succeeds exactly when its body completes: the `succeeds` oracle of a
    run is that outcome. */
module PipelineDag {
  import opened Wrappers
  import Orchestrator
  import Storage
  import DataPreprocessor

  datatype Task = DataLoading | DataPreprocessing | ModelTraining | ModelEvaluation | StorageUpload | Cleanup

  function TaskId(t: Task): string {
    match t
    case DataLoading => "data_loading_and_analysis"
    case DataPreprocessing => "data_preprocessing"
    case ModelTraining => "model_training"
    case ModelEvaluation => "model_evaluation"
    case StorageUpload => "storage_upload"
    case Cleanup => "cleanup_and_summary"
  }

  /** Task ids name tasks uniquely. */
  lemma TaskIdInjective(a: Task, b: Task)
    ensures TaskId(a) == TaskId(b) <==> a == b
  {
  }

  /** The tasks in the order the dependency chain lists them. */
  const Chain: seq<Task> := [DataLoading, DataPreprocessing, ModelTraining, ModelEvaluation, StorageUpload, Cleanup]

  /** The dependency edges of `t1 >> t2 >> ... >> tn`: each task to the next. */
  function Edges(chain: seq<Task>): (e: seq<(Task, Task)>)
    ensures |chain| > 0 ==> |e| == |chain| - 1
    ensures |chain| == 0 ==> e == []
    ensures forall k :: 0 <= k < |e| ==> e[k] == (chain[k], chain[k + 1])
  {
    if |chain| < 2 then []
    else seq(|chain| - 1, k requires 0 <= k < |chain| - 1 => (chain[k], chain[k + 1]))
  }

  /** An execution order (a start position per task) in which every edge's
      upstream task comes first. */
  predicate RespectsEdges(pos: Task -> nat, e: seq<(Task, Task)>) {
    forall k :: 0 <= k < |e| ==> pos(e[k].0) < pos(e[k].1)
  }

  predicate OrdersChain(pos: Task -> nat, chain: seq<Task>) {
    forall i, j :: 0 <= i < j < |chain| ==> pos(chain[i]) < pos(chain[j])
  }

  lemma {:induction false} EdgesOrderPair(chain: seq<Task>, pos: Task -> nat, i: nat, j: nat)
    requires RespectsEdges(pos, Edges(chain))
    requires i < j < |chain|
    ensures pos(chain[i]) < pos(chain[j])
    decreases j - i
  {
    assert Edges(chain)[i] == (chain[i], chain[i + 1]);
    if i + 1 < j {
      EdgesOrderPair(chain, pos, i + 1, j);
    }
  }

  /** The chain is linear: an order respects the declared edges exactly
      when it runs the tasks in chain order, so the scheduler has a single
      admissible order. */
  lemma ChainIsLinear(pos: Task -> nat)
    ensures RespectsEdges(pos, Edges(Chain)) <==> OrdersChain(pos, Chain)
  {
    if RespectsEdges(pos, Edges(Chain)) {
      forall i, j | 0 <= i < j < |Chain| ensures pos(Chain[i]) < pos(Chain[j]) {
        EdgesOrderPair(Chain, pos, i, j);
      }
    }
  }

  /** Every task has at most one upstream and at most one downstream task. */
  lemma ChainFanInOut()
    ensures forall k, m :: 0 <= k < m < |Edges(Chain)| ==>
      Edges(Chain)[k].0 != Edges(Chain)[m].0 && Edges(Chain)[k].1 != Edges(Chain)[m].1
  {
  }

  /** The retry policy of the default arguments. */
  datatype DefaultArgs = DefaultArgs(retries: nat, retryDelayMinutes: nat)

  const Defaults: DefaultArgs := DefaultArgs(2, 5)

  /** One triggered run of the pipeline under the default retry policy. */
  function RunDag(succeeds: (Task, nat) -> bool): (states: seq<Orchestrator.StageState>)
    ensures |states| == |Chain|
    ensures forall i :: 0 <= i < |Chain| && !states[i].Skipped? ==>
      && 1 <= states[i].attempts <= Defaults.retries + 1
      && Orchestrator.BackoffMinutes(states[i], Defaults.retryDelayMinutes) <= Defaults.retries * Defaults.retryDelayMinutes
  {
    Orchestrator.RunStages(Chain, succeeds, Defaults.retries)
  }

  /** "Retried up to 2 times with a 5-minute delay": a task whose every
      attempt raises, reached after its upstream tasks succeeded, makes
      exactly three attempts, waits ten minutes in all, and no later task
      starts. */
  lemma AlwaysFailingTask(succeeds: (Task, nat) -> bool, i: nat)
    requires i < |Chain|
    requires forall j :: 0 <= j < i ==> Orchestrator.Recoverable(succeeds, Chain[j], Defaults.retries)
    requires forall a :: 0 <= a <= Defaults.retries ==> !succeeds(Chain[i], a)
    ensures RunDag(succeeds)[i] == Orchestrator.Failed(3)
    ensures Orchestrator.BackoffMinutes(RunDag(succeeds)[i], Defaults.retryDelayMinutes) == 10
    ensures forall j :: i < j < |Chain| ==> RunDag(succeeds)[j].Skipped?
  {
    Orchestrator.RunReaches(Chain, succeeds, Defaults.retries, i);
  }

  /** How a Python call with `given` positional arguments binds to a
      function of `required` parameters plus `optional` defaulted ones. */
  function BindArguments(given: nat, required: nat, optional: nat): (r: Result<()>)
    ensures r.Ok? <==> required <= given <= required + optional
    ensures r.Err? ==> r.exc == TypeError
  {
    if required <= given <= required + optional then Ok(()) else Err(TypeError)
  }

  /** The plotting helper takes the evaluation results and an optional
      output directory. */
  const PlotRequired: nat := 1
  const PlotOptional: nat := 1

  /** The number of arguments the evaluate task passes to the plotting
      helper: the model, the test features, the test target and the
      evaluation results. */
  const PlotArgumentsAsWritten: nat := 4

  /** The number the standalone evaluator passes: the results alone. */
  const PlotArgumentsIntended: nat := 1

  /** The evaluate task's body.  `before` is what loading, evaluating and
      saving the metrics raise, if anything; `after` is what the report
      raises.  Around the plotting call only ImportError is tolerated; the
      helper itself swallows every error raised inside it, so only the
      call's binding can fail.  Any other exception is re-raised. */
  function EvaluateModelTask(before: Option<Exc>, plotArguments: nat, after: Option<Exc>): (r: Result<string>)
    ensures before.Some? ==> r == Err(before.value)
    ensures r.Ok? <==>
      before.None? && after.None? && PlotRequired <= plotArguments <= PlotRequired + PlotOptional
  {
    if before.Some? then Err(before.value)
    else
      var plots := BindArguments(plotArguments, PlotRequired, PlotOptional);
      // the `except ImportError` around the call: binding raises only
      // TypeError, so with the helper's own errors swallowed this never fires
      var tolerated := if plots.Err? && plots.exc == ImportError then Ok(()) else plots;
      if tolerated.Err? then Err(tolerated.exc)
      else if after.Some? then Err(after.value)
      else Ok("evaluation done")
  }

  /** As written, the evaluate task raises TypeError on every attempt that
      gets as far as plotting. */
  lemma EvaluateAsWrittenAlwaysRaises(before: Option<Exc>, after: Option<Exc>)
    ensures EvaluateModelTask(before, PlotArgumentsAsWritten, after).Err?
    ensures before.None? ==> EvaluateModelTask(before, PlotArgumentsAsWritten, after) == Err(TypeError)
  {
  }

  /** With the call the standalone evaluator makes, the task completes
      exactly when its other steps do. */
  lemma EvaluateIntended(before: Option<Exc>, after: Option<Exc>)
    ensures EvaluateModelTask(before, PlotArgumentsIntended, after).Ok? <==> before.None? && after.None?
  {
  }

  /** Consequently, with the evaluate task as written, no run ever reaches
      the upload and cleanup tasks, and no run succeeds. */
  lemma AsWrittenRunNeverUploads(succeeds: (Task, nat) -> bool, beforeAt: nat -> Option<Exc>, afterAt: nat -> Option<Exc>)
    requires forall a :: succeeds(ModelEvaluation, a) == EvaluateModelTask(beforeAt(a), PlotArgumentsAsWritten, afterAt(a)).Ok?
    ensures RunDag(succeeds)[4].Skipped? && RunDag(succeeds)[5].Skipped?
    ensures !Orchestrator.RunSucceeded(RunDag(succeeds))
  {
    var states := RunDag(succeeds);
    forall a | 0 <= a <= Defaults.retries ensures !succeeds(ModelEvaluation, a) {
      EvaluateAsWrittenAlwaysRaises(beforeAt(a), afterAt(a));
    }
    assert Chain[3] == ModelEvaluation;
    assert !Orchestrator.Recoverable(succeeds, Chain[3], Defaults.retries);
    assert !Orchestrator.Attempts(succeeds, Chain[3], Defaults.retries).Succeeded?;
    assert !states[3].Succeeded?;
  }

  /** `os.getenv(name) or ""`: an unset and an empty variable both give "". */
  function EnvOrEmpty(env: map<string, string>, name: string): (v: string)
    ensures name in env ==> v == env[name]
    ensures name !in env ==> v == ""
  {
    if name in env && env[name] != "" then env[name] else ""
  }

  /** The storage type the upload task reads: STORAGE_TYPE, "local" when unset. */
  function RequestedStorage(env: map<string, string>): string {
    if "STORAGE_TYPE" in env then env["STORAGE_TYPE"] else "local"
  }

  const LocalConfig: Storage.Config := map["type" := "local", "base_path" := "results"]

  /** The upload task's storage configuration: a keyed configuration for
      the three remote tags (matched exactly), the local one otherwise. */
  function SelectStorageConfig(env: map<string, string>): (cfg: Storage.Config)
    ensures "type" in cfg
    ensures cfg["type"] in {"dropbox", "gcs", "s3"} <==> RequestedStorage(env) in {"dropbox", "gcs", "s3"}
    ensures cfg["type"] in {"dropbox", "gcs", "s3"} ==> cfg["type"] == RequestedStorage(env)
    ensures RequestedStorage(env) !in {"dropbox", "gcs", "s3"} ==> cfg == LocalConfig
    // each remote configuration carries its variables, "" for an unset one
    ensures RequestedStorage(env) == "dropbox" ==>
      && cfg.Keys == {"type", "access_token"}
      && cfg["access_token"] == EnvOrEmpty(env, "DROPBOX_ACCESS_TOKEN")
    ensures RequestedStorage(env) == "gcs" ==>
      && cfg.Keys == {"type", "bucket_name", "credentials_path"}
      && cfg["bucket_name"] == EnvOrEmpty(env, "GCS_BUCKET_NAME")
      && cfg["credentials_path"] == EnvOrEmpty(env, "GCS_CREDENTIALS_PATH")
    ensures RequestedStorage(env) == "s3" ==>
      && cfg.Keys == {"type", "bucket_name", "access_key", "secret_key"}
      && cfg["bucket_name"] == EnvOrEmpty(env, "S3_BUCKET_NAME")
      && cfg["access_key"] == EnvOrEmpty(env, "AWS_ACCESS_KEY_ID")
      && cfg["secret_key"] == EnvOrEmpty(env, "AWS_SECRET_ACCESS_KEY")
  {
    var requested := RequestedStorage(env);
    if requested == "dropbox" then
      map["type" := "dropbox", "access_token" := EnvOrEmpty(env, "DROPBOX_ACCESS_TOKEN")]
    else if requested == "gcs" then
      map["type" := "gcs",
          "bucket_name" := EnvOrEmpty(env, "GCS_BUCKET_NAME"),
          "credentials_path" := EnvOrEmpty(env, "GCS_CREDENTIALS_PATH")]
    else if requested == "s3" then
      map["type" := "s3",
          "bucket_name" := EnvOrEmpty(env, "S3_BUCKET_NAME"),
          "access_key" := EnvOrEmpty(env, "AWS_ACCESS_KEY_ID"),
          "secret_key" := EnvOrEmpty(env, "AWS_SECRET_ACCESS_KEY")]
    else LocalConfig
  }

  /** Whatever the environment holds, the chosen configuration passes the
      factory's tag check and never collides with its parameter name: the
      only way building the client can fail is the backend's construction.
      A remote backend always receives its settings as strings, "" for an
      unset variable. */
  lemma SelectedConfigReachesBackend(env: map<string, string>, world: Storage.World)
    ensures var cfg := SelectStorageConfig(env);
      && Storage.Lower(Storage.StorageType(cfg)) in Storage.SupportedTags
      && "storage_type" !in cfg
      && Storage.ClientOf(cfg, world) == Storage.GetStorageClient(Storage.StorageType(cfg), cfg, world)
    ensures RequestedStorage(env) == "dropbox" ==>
      Storage.ClientFor(Storage.Dropbox, SelectStorageConfig(env))
        == Storage.DropboxStorage(Some(EnvOrEmpty(env, "DROPBOX_ACCESS_TOKEN")))
    ensures RequestedStorage(env) == "gcs" ==>
      Storage.ClientFor(Storage.Gcs, SelectStorageConfig(env))
        == Storage.GcsStorage(Some(EnvOrEmpty(env, "GCS_BUCKET_NAME")), Some(EnvOrEmpty(env, "GCS_CREDENTIALS_PATH")))
    ensures RequestedStorage(env) == "s3" ==>
      Storage.ClientFor(Storage.S3, SelectStorageConfig(env))
        == Storage.S3Storage(
             Some(EnvOrEmpty(env, "S3_BUCKET_NAME")),
             Some(EnvOrEmpty(env, "AWS_ACCESS_KEY_ID")),
             Some(EnvOrEmpty(env, "AWS_SECRET_ACCESS_KEY")))
  {
    var requested := RequestedStorage(env);
    if requested == "dropbox" {
      RemoteSelectionReachesBackend(env, world, "dropbox");
    } else if requested == "gcs" {
      RemoteSelectionReachesBackend(env, world, "gcs");
    } else if requested == "s3" {
      RemoteSelectionReachesBackend(env, world, "s3");
    } else {
      assert SelectStorageConfig(env) == LocalConfig;
      assert Storage.Lower("local") == "local";
    }
  }

  /** The tag check for one requested remote backend. */
  lemma RemoteSelectionReachesBackend(env: map<string, string>, world: Storage.World, tag: string)
    requires tag in {"dropbox", "gcs", "s3"} && RequestedStorage(env) == tag
    ensures var cfg := SelectStorageConfig(env);
      && Storage.StorageType(cfg) == tag
      && Storage.Lower(tag) == tag
      && "storage_type" !in cfg
      && Storage.ClientOf(cfg, world) == Storage.GetStorageClient(tag, cfg, world)
  {
    assert Storage.Lower("dropbox") == "dropbox";
    assert Storage.Lower("gcs") == "gcs";
    assert Storage.Lower("s3") == "s3";
  }

  /** Tags are matched exactly here, so an upper-case "S3", which the
      factory itself would accept, selects the local configuration. */
  lemma UppercaseTagFallsBackToLocal(env: map<string, string>)
    requires "STORAGE_TYPE" in env && env["STORAGE_TYPE"] == "S3"
    ensures SelectStorageConfig(env) == LocalConfig
    ensures Storage.Lower(env["STORAGE_TYPE"]) in Storage.SupportedTags
  {
    assert Storage.Lower("S3") == "s3";
  }

  /** The upload task: uploads the results directory with the selected
      configuration and completes whether or not every file was uploaded
      (a partial upload only logs a warning). */
  method UploadToStorageTask(env: map<string, string>, files: seq<Storage.Path>, world: Storage.World)
    returns (r: Result<string>, report: Storage.UploadReport)
    ensures r == Ok("upload done")
    ensures report.manifest.Some? ==> report.manifest.value.storageType == SelectStorageConfig(env)["type"]
    ensures report.success <==>
      && Storage.ClientOf(SelectStorageConfig(env), world).Ok?
      && world.manifestWritable
      && forall i :: 0 <= i < |files| ==>
           Storage.UploadFile(Storage.ClientOf(SelectStorageConfig(env), world).value, world,
             Storage.JoinPath(["results"], files[i]), files[i])
  {
    var cfg := SelectStorageConfig(env);
    report := Storage.UploadResults(cfg, ["results"], files, world);
    r := Ok("upload done");
  }

  /** The files the tasks exchange. */
  datatype Artifact =
    | RawData | AnalysisReport
    | TrainFeatures | TrainTarget | TestFeatures | TestTarget | Scaler
    | TrainedModel | Metrics | EvaluationReport
    | UploadSummary | PipelineSummary

  function ResultsFile(name: string): string {
    DataPreprocessor.ProcessedDataFile("results", name)
  }

  function ArtifactPath(a: Artifact): string {
    match a
    case RawData => "wdbc.data"
    case AnalysisReport => ResultsFile("data_analysis.txt")
    case TrainFeatures => ResultsFile("X_train.csv")
    case TrainTarget => ResultsFile("y_train.csv")
    case TestFeatures => ResultsFile("X_test.csv")
    case TestTarget => ResultsFile("y_test.csv")
    case Scaler => ResultsFile("scaler.joblib")
    case TrainedModel => ResultsFile("breast_cancer_model.joblib")
    case Metrics => ResultsFile("model_metrics.json")
    case EvaluationReport => ResultsFile("evaluation_report.txt")
    case UploadSummary => ResultsFile("upload_summary.json")
    case PipelineSummary => ResultsFile("pipeline_summary.json")
  }

  /** The named files a task reads.  (The upload task reads whatever the
      results directory holds, which no fixed list describes.) */
  function Reads(t: Task): seq<Artifact> {
    match t
    case DataLoading => [RawData]
    case DataPreprocessing => [RawData]
    case ModelTraining => [TrainFeatures, TrainTarget]
    case ModelEvaluation => [TestFeatures, TestTarget, TrainedModel]
    case StorageUpload => []
    case Cleanup => []
  }

  /** The files a task writes when it completes. */
  function Writes(t: Task): seq<Artifact> {
    match t
    case DataLoading => [AnalysisReport]
    case DataPreprocessing => [TrainFeatures, TrainTarget, TestFeatures, TestTarget, Scaler]
    case ModelTraining => [TrainedModel]
    case ModelEvaluation => [Metrics, EvaluationReport]
    case StorageUpload => [UploadSummary]
    case Cleanup => [PipelineSummary]
  }

  /** Some task before position `n` of the chain writes `a`. */
  predicate WrittenBefore(a: Artifact, n: nat) {
    exists j :: 0 <= j < n && j < |Chain| && a in Writes(Chain[j])
  }

  /** Every file a task reads is the raw data or was written by a task
      upstream of it; preprocessing reads the raw data again rather than
      anything the first task wrote. */
  lemma ArtifactContract()
    ensures forall i, a :: 0 <= i < |Chain| && a in Reads(Chain[i]) ==> a == RawData || WrittenBefore(a, i)
    ensures Reads(DataPreprocessing) == [RawData]
  {
    assert TrainFeatures in Writes(Chain[1]) && TrainTarget in Writes(Chain[1]);
    assert TestFeatures in Writes(Chain[1]) && TestTarget in Writes(Chain[1]);
    assert TrainedModel in Writes(Chain[2]);
  }

  /** The four split files the task chain exchanges are exactly the files
      the preprocessing code saves, in the same order. */
  lemma SplitFilesMatchSaver()
    ensures [ArtifactPath(TrainFeatures), ArtifactPath(TrainTarget), ArtifactPath(TestFeatures), ArtifactPath(TestTarget)]
      == DataPreprocessor.ProcessedDataFiles("results")
  {
  }

  /** The summary the cleanup task records. */
  datatype Summary = Summary(tasksCompleted: seq<string>, outputFiles: seq<string>)

  const CleanupSummary: Summary := Summary(
    ["data_loading_and_analysis", "data_preprocessing", "model_training", "model_evaluation", "storage_upload"],
    ["breast_cancer_model.joblib", "model_metrics.json", "evaluation_report.txt", "scaler.joblib"])

  /** The artifacts the summary's output files name, in its order. */
  const SummaryArtifacts: seq<Artifact> := [TrainedModel, Metrics, EvaluationReport, Scaler]

  /** The summary lists the tasks before cleanup, in execution order, and
      not cleanup itself; every output file it names was written by one of
      those tasks. */
  lemma SummaryIsConsistent()
    ensures |CleanupSummary.tasksCompleted| == |Chain| - 1
    ensures forall i :: 0 <= i < |Chain| - 1 ==> CleanupSummary.tasksCompleted[i] == TaskId(Chain[i])
    ensures TaskId(Cleanup) !in CleanupSummary.tasksCompleted
    ensures |CleanupSummary.outputFiles| == |SummaryArtifacts|
    ensures forall i :: 0 <= i < |SummaryArtifacts| ==>
      && ArtifactPath(SummaryArtifacts[i]) == ResultsFile(CleanupSummary.outputFiles[i])
      && WrittenBefore(SummaryArtifacts[i], |Chain| - 1)
  {
    assert TrainedModel in Writes(Chain[2]);
    assert Metrics in Writes(Chain[3]) && EvaluationReport in Writes(Chain[3]);
    assert Scaler in Writes(Chain[1]);
  }
}
