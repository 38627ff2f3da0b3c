/** The simplified, local-only storage module: its factory knows a single
    tag, matched exactly, and its standalone entry point always falls back
    to the local configuration.  Paths, the world, the local backend's
    upload and the sweep are those of `Storage`; the local class here
    behaves exactly like the one there. */
module StorageLocalOnly {
  import opened Wrappers
  import opened Storage

  /** The factory: only the exact string "local" is accepted (no
      lower-casing); constructing the backend creates its base directory. */
  function GetStorageClient(storageType: string, kwargs: Config, world: World): (r: Result<Backend>)
    ensures storageType != "local" ==> r == Err(ValueError)
    ensures storageType == "local" ==>
      var base := Lookup(kwargs, "base_path").GetOr("results");
      (r.Ok? <==> !world.makedirsFails(base)) && (r.Err? ==> r.exc == OSError)
    ensures r.Ok? ==> r.value == LocalStorage(Lookup(kwargs, "base_path").GetOr("results"))
  {
    if storageType == "local" then
      var b := LocalStorage(Lookup(kwargs, "base_path").GetOr("results"));
      if world.makedirsFails(b.basePath) then Err(OSError) else Ok(b)
    else Err(ValueError)
  }

  /** Upper-case "LOCAL" is rejected here but accepted by the full factory. */
  lemma CaseSensitiveUnlikeFullFactory(kwargs: Config, world: World)
    ensures GetStorageClient("LOCAL", kwargs, world) == Err(ValueError)
    ensures Storage.GetStorageClient("LOCAL", kwargs, world) == Storage.GetStorageClient("local", kwargs, world)
  {
    Storage.FactoryIgnoresCase("LOCAL", kwargs, world);
    assert Lower("LOCAL") == "local";
  }

  function ClientOf(storageConfig: Config, world: World): Result<Backend> {
    if "storage_type" in storageConfig then Err(TypeError)
    else GetStorageClient(StorageType(storageConfig), storageConfig, world)
  }

  /** `upload_results` of the local-only module.  The backend is always the
      local one, so the run succeeds exactly when the client is built, the
      manifest is written and every listed file exists. */
  method UploadResults(storageConfig: Config, resultsDir: Path, files: seq<Path>, world: World)
    returns (report: UploadReport)
    ensures ClientOf(storageConfig, world).Err? ==> report == UploadReport(false, [], None)
    ensures ClientOf(storageConfig, world).Ok? ==> report.calls == Enumerate(resultsDir, files)
    ensures report.manifest.Some? <==> ClientOf(storageConfig, world).Ok? && world.manifestWritable
    ensures report.manifest.Some? ==>
      && report.manifest.value.storageType == StorageType(storageConfig)
      && report.manifest.value.totalFiles == |files|
      && report.manifest.value.files == files
      && report.manifest.value.successfulUploads
           == Successes((l, r) => UploadFile(ClientOf(storageConfig, world).value, world, l, r), report.calls)
      && report.manifest.value.successfulUploads <= |files|
      && (report.manifest.value.successfulUploads == |files| <==>
            forall i :: 0 <= i < |files| ==> JoinPath(resultsDir, files[i]) in world.existing)
    ensures report.success <==>
      && ClientOf(storageConfig, world).Ok?
      && world.manifestWritable
      && forall i :: 0 <= i < |files| ==> JoinPath(resultsDir, files[i]) in world.existing
  {
    var client := ClientOf(storageConfig, world);
    if client.Err? {
      return UploadReport(false, [], None);
    }
    var b := client.value;
    var calls, successCount := Sweep((l, r) => UploadFile(b, world, l, r), resultsDir, files);
    if !world.manifestWritable {
      return UploadReport(false, calls, None);
    }
    assert RemotePaths(calls) == files;
    var manifest := Manifest(StorageType(storageConfig), |calls|, successCount, RemotePaths(calls));
    report := UploadReport(successCount == |calls|, calls, Some(manifest));
  }

  /** The only configuration the standalone entry point ever uses. */
  const LocalDefaultConfig: Config := map["type" := "local", "base_path" := "results"]

  /** The configuration chosen by the standalone entry point from the
      environment: whatever STORAGE_TYPE says, the local configuration. */
  function StandaloneConfig(env: map<string, string>): (cfg: Config)
    ensures cfg == LocalDefaultConfig
    ensures StorageType(cfg) == "local"
  {
    // STORAGE_TYPE is read, and a value other than "local" only logs a
    // warning before the local configuration is chosen again
    LocalDefaultConfig
  }

  datatype StandaloneOutcome = CompletedSuccessfully | CompletedWithWarnings

  /** The standalone entry point: uploads with the local configuration and
      reports success or warnings; it never raises, because the upload
      catches everything.  It always uploads the default "results"
      directory.  On an unchanged results directory (every listed
      file still exists) whose manifest can be written, it reports success. */
  method RunStandalone(env: map<string, string>, files: seq<Path>, world: World)
    returns (outcome: StandaloneOutcome, report: UploadReport)
    ensures !world.makedirsFails("results") ==> report.calls == Enumerate(["results"], files)
    ensures report.manifest.Some? ==> report.manifest.value.storageType == "local"
    ensures outcome == CompletedSuccessfully <==> report.success
    ensures
      && !world.makedirsFails("results")
      && world.manifestWritable
      && (forall i :: 0 <= i < |files| ==> JoinPath(["results"], files[i]) in world.existing)
      ==> outcome == CompletedSuccessfully
    ensures world.makedirsFails("results") ==> outcome == CompletedWithWarnings && report.calls == []
  {
    var cfg := StandaloneConfig(env);
    assert Lookup(cfg, "base_path") == Some("results");
    report := UploadResults(cfg, ["results"], files, world);
    outcome := if report.success then CompletedSuccessfully else CompletedWithWarnings;
  }
}
