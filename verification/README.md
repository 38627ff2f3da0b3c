# Breast-cancer diagnosis pipeline: a Dafny model of its core

The repository runs an end-to-end pipeline on the Wisconsin diagnostic
breast-cancer dataset. It loads the 32-column `wdbc.data` file, validates
it, cleans and labels it, splits and scales it, trains and evaluates a
classifier, and uploads the results directory to a storage backend. The
pipeline runs either as a scheduled DAG of six tasks with retries or as a
command-line script that runs five steps once each.

This project models the parts of the pipeline that do not depend on
numerics:

- **Storage upload** (`Storage`, `StorageLocalOnly`):
  - the four backends' `upload_file`;
  - the case-insensitive factory, and the exact-match factory of the local-only module;
  - the upload sweep and its `upload_summary.json` manifest;
  - the local-only module's standalone entry point.
- **Stage sequencing:**
  - the retry policy of the scheduler configuration (`Orchestrator`);
  - the six-task chain, the storage configuration the upload task builds,
    the files the tasks exchange, and the cleanup summary (`PipelineDag`);
  - the script's step runner, dependency check and exit status (`MainScript`).
- **Validation and label bookkeeping:**
  - loading and schema validation, and the quality-issue report (`DataLoader`);
  - the non-numeric parts of preprocessing, on top of a small table library
    (`Tables`, `DataPreprocessor`): deduplication by identifier,
    imputation bookkeeping, the M/B → 1/0 target, outlier-row removal as
    row filtering, feature selection, the train/test split and scaler
    plumbing, and the four saved files.
- **Settings** (`Settings`): `get_env_variable`, `load_config` and the
  module-level `CONFIG` fallback.

Python exceptions are values of `Wrappers.Exc` carried in a `Result`. The
filesystem, the environment, the cloud SDKs, the CSV parser and the
statistics routines are not called. They are parameters: a `Storage.World`
value, maps, oracle functions, or a `Result` the caller supplies.

## Model

| member | source | states |
|---|---|---|
| Settings.GetEnvVariable | config/settings.py:52-70 | A set variable's value wins over the default. An unset variable takes the default. An unset variable without a default is a ValueError, and that is the only error. |
| Settings.EmptyValueCountsAsSet | config/settings.py:65-66 | A variable set to "" returns "" and neither raises nor falls back to the default. |
| Settings.LoadConfig | config/settings.py:25-49 | ImportError without PyYAML, FileNotFoundError for a missing file, ValueError for a YAML syntax error; otherwise the parsed document, possibly null. |
| Settings.GlobalConfig | config/settings.py:73-77 | CONFIG is {} when PyYAML or the file is missing. A malformed file still raises ValueError at import. A readable file gives its contents. |
| DataLoader.SchemaShape | etl/data_loader.py:43-74 | The read schema has 32 distinct names, with "id" and "diagnosis" first. |
| DataLoader.LoadBreastCancerData | etl/data_loader.py:76-96 | Missing file is FileNotFoundError. A parse error propagates unchanged. An empty table or a column count other than 32 is ValueError. Otherwise the parsed table is returned unchanged. |
| DataLoader.ValidateDataSchema | etl/data_loader.py:152-190 | True exactly when "id" and "diagnosis" exist and every diagnosis cell is "M" or "B"; every failure is ValueError. |
| DataLoader.SingleClassAccepted | etl/data_loader.py:180-183 | The label check is a subset test, so a dataset holding only "M" passes. |
| DataLoader.QualityIssues | etl/data_loader.py:124-142 | Missing values, duplicate rows and a class count other than 2 each add their issue. The "no serious issues" entry appears exactly when none is found. The list is never empty. Each problem appears at most once, in the order missing values, duplicates, classes. |
| DataLoader.AnalyzeData | etl/data_loader.py:99-149 | KeyError exactly without a diagnosis column. Otherwise: the shape; per-label counts that match the column's multiset, with missing labels excluded; and the quality issues. |
| Tables.SetColumn | etl/data_preprocessor.py:73-75 | Assigning a column overwrites it when present or appends it last. The new column holds the given values, and every other column is unchanged. |
| Tables.Project | etl/data_preprocessor.py:131 | Selecting columns gives exactly those columns in that order, with the same contents. |
| Tables.FillMissing | etl/data_preprocessor.py:60-70 | Present values never change and excepted columns are untouched. A missing cell elsewhere takes its column's replacement. |
| DataPreprocessor.KeepFirst | etl/data_preprocessor.py:44-46 | Keeps a subsequence of the rows whose ids are distinct, with the same id set as the input. Each kept row is the first row carrying its id, and the kept rows are in first-occurrence order. |
| DataPreprocessor.KeepFirstIdempotent | etl/data_preprocessor.py:45 | Dropping duplicate ids twice equals dropping them once. |
| DataPreprocessor.DeduplicationExample | etl/data_preprocessor.py:45 | A repeated id loses its later row, and the earlier one stays in place. |
| DataPreprocessor.DropDuplicateIds | etl/data_preprocessor.py:43-46 | KeyError exactly without an "id" column; otherwise the columns are kept and the rows are `KeepFirst` on the id column: a subsequence with distinct ids and the same id set, each row the first of its id. |
| DataPreprocessor.ImputeMissing | etl/data_preprocessor.py:52-70 | A table with no missing cell is returned as is. The diagnosis column is never filled. Present values never change. Every other missing cell takes its column's fill value. |
| DataPreprocessor.Binary | etl/data_preprocessor.py:73-75 | "M" maps to 1, "B" to 0, and anything else to a missing value. |
| DataPreprocessor.AddBinaryTarget | etl/data_preprocessor.py:72-79 | KeyError without a diagnosis column. Succeeds exactly when every diagnosis is a label, otherwise ValueError. On success "diagnosis_binary" is added (or overwritten) with the mapped values, and the other columns are unchanged. |
| DataPreprocessor.LabelledAfterRowRemoval | etl/data_preprocessor.py:94-97 | Removing rows keeps every remaining row's label consistent with its binary target. |
| DataPreprocessor.RemoveOutliers | etl/data_preprocessor.py:81-98 | Outlier removal keeps the columns and keeps a subsequence of the rows. |
| DataPreprocessor.RemoveOutliersWithoutFeatures | etl/data_preprocessor.py:85-86 | When none of the key features is a column, no row is removed. |
| DataPreprocessor.PreprocessData | etl/data_preprocessor.py:27-108 | KeyError without "id", then KeyError without "diagnosis". Succeeds exactly when every row left after deduplication has an M/B diagnosis, otherwise ValueError. The result never has more rows than the input, and every row is labelled consistently. |
| DataPreprocessor.PreprocessKeepsIdsDistinct | etl/data_preprocessor.py:44-98 | If no identifier is missing, the cleaned table has one row per identifier. |
| DataPreprocessor.PreprocessKeepsFirstOccurrences | etl/data_preprocessor.py:44-98 | If no identifier is missing, the identifiers of the cleaned table are, in order, a selection of those of the first row of each identifier in the input. |
| DataPreprocessor.FeatureColumns | etl/data_preprocessor.py:125-129 | The features are exactly the columns other than id, diagnosis and diagnosis_binary, in table order. |
| DataPreprocessor.FeatureColumnsOfSchema | etl/data_preprocessor.py:125-129 | On the loaded schema plus the binary target, the features are the 30 measurements in schema order. |
| DataPreprocessor.PrepareFeatures | etl/data_preprocessor.py:111-149 | KeyError without diagnosis_binary. ValueError exactly when the target has a missing value. On success X has the feature columns, y is the target column, present feature values are kept, and every missing feature value takes its column's fill value (the median). |
| DataPreprocessor.SplitAndScale | etl/data_preprocessor.py:152-195 | ValueError on a length mismatch, and the split's error propagates. The scaler is fitted on the training rows only. Both partitions are transformed by that scaler, and the targets follow the split's positions. |
| DataPreprocessor.ScalerIgnoresTestRows | etl/data_preprocessor.py:178-187 | Changing the test rows changes neither the fitted scaler nor the scaled training partition. |
| DataPreprocessor.ProcessedDataFilesDistinct | etl/data_preprocessor.py:212-217 | The four saved files are pairwise distinct in any directory. |
| DataPreprocessor.SaveProcessedData | etl/data_preprocessor.py:198-223 | Writes X_train, y_train, X_test and y_test in order into the directory. A failure to create the directory writes nothing; a failed write stops at exactly that file. It completes exactly when the directory can be made and every file is writable. Errors are OSError. |
| Storage.RelPathOfJoin | etl/storage_manager.py:333-337 | A file's remote path, relative to the results directory, is the part below that directory. |
| Storage.ClientFor | etl/storage_manager.py:296-307 | Each tag builds its own backend class from the configuration's keys; absent keys are None, and the base path defaults to "results". |
| Storage.GetStorageClient | etl/storage_manager.py:283-309 | An unknown tag, after lower-casing, is ValueError. A known tag builds that backend. Construction errors reach the caller unchanged. |
| Storage.FactoryIgnoresCase | etl/storage_manager.py:294 | The factory gives the same outcome for a tag and its lower-case form. |
| Storage.UploadFile | etl/storage_manager.py:38-58 | Never raises. Local: true exactly for an existing file. Dropbox as written: always false. GCS and S3 (lines 189-201, 254-265): true exactly when the SDK call completes. |
| Storage.LocalUploadIgnoresRemotePath | etl/storage_manager.py:38-55 | The local backend's result does not depend on the remote path. |
| Storage.DropboxUploadIntended | etl/storage_manager.py:108-132 | With `dropbox` in scope: true exactly when the file exists and the SDK accepts it. |
| Storage.DropboxUploadDefect | etl/storage_manager.py:122-127 | An existing file that the SDK would accept still fails as written. |
| Storage.ListFiles | etl/storage_manager.py:60-76 | Each listed file, joined to the base directory, is the walked path, in walk order. |
| Storage.Enumerate | etl/storage_manager.py:333-338 | One (local, remote) pair per walked file. The local path lies below the results directory, and the remote path is relative to it. |
| Storage.AllSucceededIff | etl/storage_manager.py:341-360 | The success count equals the file count exactly when every call succeeded. |
| Storage.Sweep | etl/storage_manager.py:333-344 | The backend is called once per file, in listing order. The count of successes reaches the file count exactly when every call succeeds. |
| Storage.DropboxSweepAsWritten | etl/storage_manager.py:341-344 | As written, a Dropbox sweep counts no success, so `upload_results` succeeds with Dropbox only for an empty directory. |
| Storage.DropboxSweepIntended | etl/storage_manager.py:341-344 | With the corrected Dropbox upload, the sweep succeeds exactly when every file exists and is accepted. |
| Storage.UploadResults | etl/storage_manager.py:312-364 | Any exception while building the client gives false with no call made. Otherwise every file is offered once. The manifest records the type, the totals and the remote paths, and is written only when writable. Returns true exactly when the client was built, the manifest was written and every upload succeeded. |
| StorageLocalOnly.GetStorageClient | etl/storage_manager_ru.py:80-96 | Only the exact string "local" is accepted, otherwise ValueError. Building the client creates its base directory, and a failure to do so is OSError. |
| StorageLocalOnly.CaseSensitiveUnlikeFullFactory | etl/storage_manager_ru.py:93-96 | "LOCAL" is rejected here but accepted by the full factory. |
| StorageLocalOnly.UploadResults | etl/storage_manager_ru.py:99-151 | Same sweep and manifest as the full module: the manifest records the exact success count of the sweep and lists the walked files exactly. Succeeds exactly when the client is built, the manifest is written and every file exists. |
| StorageLocalOnly.StandaloneConfig | etl/storage_manager_ru.py:157-167 | Whatever STORAGE_TYPE holds, the local configuration is used. |
| StorageLocalOnly.RunStandalone | etl/storage_manager_ru.py:154-181 | Always uploads the default "results" directory, one call per listed file. Reports success exactly when the upload succeeded. With a creatable "results" directory, a writable manifest and an unchanged directory it reports success. |
| Orchestrator.AttemptsFrom | dags/pipeline_dag.py:27-28 | Retries until an attempt succeeds or retries run out. Failed means every allowed attempt raised, after retries + 1 attempts. Success stops at the first successful attempt. |
| Orchestrator.Attempts | dags/pipeline_dag.py:27-28 | One original attempt plus at most `retries` retries, stopping at the first success. |
| Orchestrator.RunStages | dags/pipeline_dag.py:464-471 | A stage starts only after every earlier stage succeeded. After a final failure every later stage is skipped. A started stage runs under the retry policy. |
| Orchestrator.RunSucceededIff | dags/pipeline_dag.py:464-471 | A run succeeds exactly when every stage has some allowed attempt that succeeds. |
| Orchestrator.RunReaches | dags/pipeline_dag.py:464-471 | A stage starts whenever every earlier stage can succeed within its attempts. |
| PipelineDag.TaskIdInjective | dags/pipeline_dag.py:374-461 | Distinct tasks have distinct task ids. |
| PipelineDag.Edges | dags/pipeline_dag.py:464-471 | The `>>` chain makes each task depend on the one before it. |
| PipelineDag.ChainIsLinear | dags/pipeline_dag.py:464-471 | An execution order respects the dependencies exactly when it runs the six tasks in chain order. |
| PipelineDag.ChainFanInOut | dags/pipeline_dag.py:464-471 | No task has two upstream or two downstream tasks. |
| PipelineDag.RunDag | dags/pipeline_dag.py:21-40 | Every started task makes at most 3 attempts and waits at most 10 minutes in back-off. |
| PipelineDag.AlwaysFailingTask | dags/pipeline_dag.py:27-28 | A task reached whose every attempt raises fails after exactly 3 attempts and 10 minutes of back-off, and every later task is skipped. |
| PipelineDag.BindArguments | etl/model_evaluator.py:175-177 | A call binds exactly when the positional count lies between the required and the total parameter count; otherwise TypeError. |
| PipelineDag.EvaluateModelTask | dags/pipeline_dag.py:201-257 | An error before plotting is re-raised. Only ImportError from plotting is tolerated. The task completes exactly when loading, plotting's binding and the report all succeed. |
| PipelineDag.EvaluateAsWrittenAlwaysRaises | dags/pipeline_dag.py:244-247 | The four-argument call raises TypeError on every attempt that reaches it, and the except clause does not catch it. |
| PipelineDag.EvaluateIntended | etl/model_evaluator.py:387 | With the one-argument call, the task completes exactly when its other steps do. |
| PipelineDag.AsWrittenRunNeverUploads | dags/pipeline_dag.py:464-471 | With the evaluate task as written, storage_upload and cleanup never start and no run succeeds. |
| PipelineDag.EnvOrEmpty | dags/pipeline_dag.py:292 | `getenv(...) or ""`: the value when set, "" otherwise. |
| PipelineDag.SelectStorageConfig | dags/pipeline_dag.py:283-306 | Exactly "dropbox", "gcs" or "s3" selects that remote configuration, whose keys are exactly the type and that backend's settings, each read from its variable, "" when unset. Any other value, including an unset variable, selects the local configuration. |
| PipelineDag.SelectedConfigReachesBackend | dags/pipeline_dag.py:283-309 | The selected configuration always passes the factory's tag check and never collides with its parameter name. A remote backend receives "" for an unset variable, not None. |
| PipelineDag.UppercaseTagFallsBackToLocal | dags/pipeline_dag.py:287-306 | "S3" selects the local configuration here, although the factory itself would accept it. |
| PipelineDag.UploadToStorageTask | dags/pipeline_dag.py:260-320 | The task completes whatever the upload reports. The manifest records the selected type. Upload success means every file was accepted by the selected backend. |
| PipelineDag.ArtifactContract | dags/pipeline_dag.py:128-250 | Every file a task reads is the raw data or was written by an upstream task. |
| PipelineDag.SplitFilesMatchSaver | etl/data_preprocessor.py:212-217 | The split files the tasks exchange are exactly the files the preprocessing code saves, in the same order. |
| PipelineDag.SummaryIsConsistent | dags/pipeline_dag.py:344-359 | The summary lists the five tasks before cleanup in chain order. Each output file it names was written by one of them. |
| MainScript.RunCompletePipeline | main.py:40-104 | Steps run in order, each at most once. The first failure stops the run and gives false. True exactly when all five steps succeed. |
| MainScript.CheckDependencies | main.py:121-143 | Every module is tried, and the missing ones are collected in order. Passes exactly when all four modules are installed. |
| MainScript.RunMain | main.py:146-182 | Exit status 0 exactly when the dependencies are installed, the data file exists, the "results" and "logs" directories can be created and every step succeeds, otherwise 1. No step runs when a pre-check or the directory creation fails. |

## Left out

- Training and evaluation numerics, the plots, the medians, modes and
  quantiles, and the scaler's arithmetic. These are library computations;
  they are the parameters `fill`, `inBounds`, `split`, `fit` and
  `transform`, which return a value and are assumed never to raise. That
  holds when the feature columns are numeric; the next three lines say
  what the model therefore does not promise for text columns.
- DataPreprocessor.PreprocessData: its "succeeds exactly when every
  deduplicated row has an M/B diagnosis" assumes numeric key features.
  `quantile` on a text key feature (data_preprocessor.py:87-88) raises
  TypeError, which the model does not produce.
- DataPreprocessor.PrepareFeatures: its "ValueError exactly when the
  target has a gap" assumes numeric features. When some feature value is
  missing (line 135) and some feature column holds text, `X.median()`
  (line 137) reduces every column and raises TypeError before the target
  is checked, even when the gap is in a numeric column. The model does
  not produce that error.
- DataPreprocessor.SplitAndScale: fitting and applying the scaler
  (lines 180-187) are assumed to succeed. `StandardScaler` raises
  ValueError on text features, which the model does not produce.
- The cloud SDKs' behaviour and what each SDK client's construction does
  inside. `World.connect` and `World.transfer` stand for them.
- Logging, the `print` calls and timing. They do not affect any outcome.
- The DAG's scheduling settings (`depends_on_past`, `catchup`,
  `schedule_interval=None`, `max_active_runs=1`, `start_date`, the e-mail
  flags) at dags/pipeline_dag.py:21-40. `PipelineDag.RunDag` models one
  manually triggered run, on which they have no effect.
- The order in which `os.walk` visits files. The walk is given as the list
  of relative paths it produces.
- `Storage.UploadResults`: the file list is a parameter, so the model does
  not say that the walk sees a manifest left by an earlier run.
- The remote backends' `list_files` (storage_manager.py:134-152,
  203-214, 267-280). No operation of the pipeline calls them.
- `main` of storage_manager.py (lines 367-407), which passes `None` for an
  unset variable, while the DAG task passes "". The DAG task's selection is
  modelled; the standalone one is not.
- The `if not self.client` guards inside the remote `upload_file` methods
  (storage_manager.py:119-120, 192-193, 257-258). These cannot trigger,
  because a constructor that fails to build its client raises.
- `Storage.Lower`: lower-cases ASCII letters only. Python's `str.lower`
  also folds non-ASCII letters, which no supported tag contains.
- `DataLoader.LoadBreastCancerData`: its 32-column check cannot fail when
  `read_csv` is given the 32 names. It is modelled as written, on whatever
  table the parser returns.
- `DataPreprocessor.ImputeMissing`: models the median fill on numeric
  columns and the mode fill on text columns as one per-column replacement
  given by the caller. The diagnosis column is never filled. A numeric
  diagnosis, which pandas would fill by median, fails the label mapping in
  either case.
- The "works on a copy" promise of `preprocess_data` (line 41). Tables are
  immutable values, so it holds by construction.
- The standalone `main` functions of data_loader.py and
  data_preprocessor.py, and `show_results_summary`. They only compose the
  modelled operations or print. The directory creation at main.py:159-160
  is modelled by `MainScript.RunMain` as a single outcome for both calls.
- The scheduler's engine. `Orchestrator` states what the configuration
  asks of it (retries, strict order), not how it schedules.
- Exception types are not distinguished by the retry policy. The task
  bodies re-raise everything, and the configuration retries every failure,
  including validation errors.
- The run date in the cleanup summary (a clock reading).

## Findings

| source | as written | input that shows it | evidently intended | confidence | as-written member | corrected member |
|---|---|---|---|---|---|---|
| etl/storage_manager.py:126 | `DropboxStorage.upload_file` evaluates `dropbox.files.WriteMode`, but `dropbox` is imported only inside `_initialize_client` (line 95). The blanket `except` turns the resulting NameError into `False`. | Any existing file with a Dropbox client whose SDK would accept it | The upload reaches the SDK, and succeeds exactly when the file exists and the SDK accepts it | not executed | Storage.DropboxSweepAsWritten | Storage.DropboxSweepIntended |
| dags/pipeline_dag.py:245 | The evaluate task calls `create_evaluation_plots(model, X_test, y_test, evaluation_results)`. The helper takes `(evaluation_results, output_dir="results")` (etl/model_evaluator.py:175-177), so the call raises TypeError. Only ImportError is caught there. | Any run whose first three tasks succeed: every evaluate attempt raises, and storage_upload and cleanup never run | `create_evaluation_plots(evaluation_results)`, as at etl/model_evaluator.py:387 | not executed | PipelineDag.AsWrittenRunNeverUploads | PipelineDag.EvaluateIntended |
