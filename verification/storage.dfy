/** The storage-upload subsystem: four backends behind one `upload_file`
    capability, a factory that picks one from a type tag, and the sweep that
    uploads every result file and writes an upload manifest.

    The filesystem and the remote services are not modelled: a `World`
    value answers every question the code asks of them. */
module Storage {
  import opened Wrappers

  /** A filesystem path as its sequence of components:
      "results/sub/f.csv" is ["results", "sub", "f.csv"]. */
  type Path = seq<string>

  /** `os.path.join`: a path below `root`. */
  function JoinPath(root: Path, rel: Path): Path {
    root + rel
  }

  /** `os.path.relpath` for a path that lies below `start`. */
  function RelPath(p: Path, start: Path): Path
    requires start <= p
  {
    p[|start|..]
  }

  /** Taking a joined path relative to its root gives back the relative part. */
  lemma RelPathOfJoin(root: Path, rel: Path)
    ensures root <= JoinPath(root, rel)
    ensures RelPath(JoinPath(root, rel), root) == rel
  {
  }

  /** A storage configuration dictionary, passed on as keyword arguments. */
  type Config = map<string, string>

  /** `kwargs.get(key)`: None when the key is absent. */
  function Lookup(cfg: Config, key: string): Option<string> {
    if key in cfg then Some(cfg[key]) else None
  }

  /** A constructed storage client, one variant per backend class, holding
      the constructor arguments it was given. */
  datatype Backend =
    | LocalStorage(basePath: string)
    | DropboxStorage(accessToken: Option<string>)
    | GcsStorage(bucketName: Option<string>, credentialsPath: Option<string>)
    | S3Storage(bucketName: Option<string>, accessKey: Option<string>, secretKey: Option<string>)

  datatype Kind = Local | Dropbox | Gcs | S3

  function KindOf(b: Backend): Kind {
    match b
    case LocalStorage(_) => Local
    case DropboxStorage(_) => Dropbox
    case GcsStorage(_, _) => Gcs
    case S3Storage(_, _, _) => S3
  }

  /** The outside world, as far as the storage code observes it. */
  datatype World = World(
    existing: set<Path>,                     // paths for which `os.path.exists` holds
    makedirsFails: string -> bool,           // `os.makedirs(base_path, exist_ok=True)` raises
    connect: Backend -> Option<Exc>,         // what a remote client's construction raises, if anything
    transfer: (Backend, Path, Path) -> bool, // the remote upload call completes (true) or raises (false)
    manifestWritable: bool)                  // the manifest file can be opened for writing

  /** `str.lower()` on the ASCII letters. */
  function LowerChar(c: char): char {
    if 'A' <= c <= 'Z' then (c as int + 32) as char else c
  }

  function Lower(s: string): string {
    seq(|s|, i requires 0 <= i < |s| => LowerChar(s[i]))
  }

  /** The tags the factory accepts, after lower-casing, and the backend each selects. */
  const SupportedTags: map<string, Kind> :=
    map["local" := Local, "dropbox" := Dropbox, "gcs" := Gcs, "s3" := S3]

  /** The constructor call the factory makes for a kind: keyword arguments
      are looked up in the configuration, absent ones passed as None (the
      local base path defaults to "results"). */
  function ClientFor(kind: Kind, kwargs: Config): (b: Backend)
    ensures KindOf(b) == kind
    ensures b.LocalStorage? ==> b.basePath == Lookup(kwargs, "base_path").GetOr("results")
    ensures b.DropboxStorage? ==> b.accessToken == Lookup(kwargs, "access_token")
    ensures b.GcsStorage? ==>
      b.bucketName == Lookup(kwargs, "bucket_name") && b.credentialsPath == Lookup(kwargs, "credentials_path")
    ensures b.S3Storage? ==>
      && b.bucketName == Lookup(kwargs, "bucket_name")
      && b.accessKey == Lookup(kwargs, "access_key")
      && b.secretKey == Lookup(kwargs, "secret_key")
  {
    match kind
    case Local => LocalStorage(Lookup(kwargs, "base_path").GetOr("results"))
    case Dropbox => DropboxStorage(Lookup(kwargs, "access_token"))
    case Gcs => GcsStorage(Lookup(kwargs, "bucket_name"), Lookup(kwargs, "credentials_path"))
    case S3 => S3Storage(Lookup(kwargs, "bucket_name"), Lookup(kwargs, "access_key"), Lookup(kwargs, "secret_key"))
  }

  /** What constructing a backend raises: the local one creates its base
      directory, a remote one builds and tests its SDK client.  Every such
      exception (including a missing SDK) is re-raised, never swallowed. */
  function ConstructionError(b: Backend, world: World): Option<Exc> {
    match b
    case LocalStorage(p) => if world.makedirsFails(p) then Some(OSError) else None
    case _ => world.connect(b)
  }

  /** The factory: lower-cases the tag, dispatches on it, and constructs the
      selected backend; any other tag is a ValueError, and a construction
      failure reaches the caller unchanged. */
  function GetStorageClient(storageType: string, kwargs: Config, world: World): (r: Result<Backend>)
    ensures Lower(storageType) !in SupportedTags ==> r == Err(ValueError)
    ensures Lower(storageType) in SupportedTags ==>
      var b := ClientFor(SupportedTags[Lower(storageType)], kwargs);
      && (r.Ok? <==> ConstructionError(b, world).None?)
      && (r.Ok? ==> r.value == b)
      && (r.Err? ==> ConstructionError(b, world) == Some(r.exc))
    ensures r.Ok? ==> Lower(storageType) in SupportedTags && KindOf(r.value) == SupportedTags[Lower(storageType)]
  {
    var tag := Lower(storageType);
    var kind :-
      if tag == "local" then Ok(Local)
      else if tag == "dropbox" then Ok(Dropbox)
      else if tag == "gcs" then Ok(Gcs)
      else if tag == "s3" then Ok(S3)
      else Err(ValueError);
    var b := ClientFor(kind, kwargs);
    match ConstructionError(b, world)
    case Some(e) => Err(e)
    case None => Ok(b)
  }

  /** The factory does not care about the case of the tag. */
  lemma {:induction false} FactoryIgnoresCase(storageType: string, kwargs: Config, world: World)
    ensures GetStorageClient(storageType, kwargs, world) == GetStorageClient(Lower(storageType), kwargs, world)
  {
    assert Lower(Lower(storageType)) == Lower(storageType);
  }

  /** The body of `upload_file` before its blanket `except Exception`.
      Local: an existence check, no copy.  Dropbox: the file is opened and
      read, then `dropbox.files.WriteMode` is evaluated, but `dropbox` was
      imported only inside the client initialiser, so the name is unbound
      here and the upload call is never reached.  GCS and S3: the SDK call. */
  function UploadAttempt(b: Backend, world: World, localPath: Path, remotePath: Path): Result<bool> {
    match b
    case LocalStorage(_) => Ok(localPath in world.existing)
    case DropboxStorage(_) =>
      if localPath !in world.existing then Err(FileNotFoundError) else Err(NameError)
    case _ => if world.transfer(b, localPath, remotePath) then Ok(true) else Err(SdkError)
  }

  /** `upload_file`: never raises; every internal exception becomes false. */
  function UploadFile(b: Backend, world: World, localPath: Path, remotePath: Path): (ok: bool)
    ensures UploadAttempt(b, world, localPath, remotePath).Err? ==> !ok
    ensures b.LocalStorage? ==> (ok <==> localPath in world.existing)
    ensures b.DropboxStorage? ==> !ok
    ensures b.GcsStorage? || b.S3Storage? ==> (ok <==> world.transfer(b, localPath, remotePath))
  {
    match UploadAttempt(b, world, localPath, remotePath)
    case Ok(v) => v
    case Err(_) => false
  }

  /** The local backend ignores the remote path entirely. */
  lemma LocalUploadIgnoresRemotePath(base: string, world: World, localPath: Path, r1: Path, r2: Path)
    ensures UploadFile(LocalStorage(base), world, localPath, r1) == UploadFile(LocalStorage(base), world, localPath, r2)
  {
  }

  /** The Dropbox upload with the module imported where it is used: the
      file is read and the SDK call decides. */
  function DropboxUploadIntended(b: Backend, world: World, localPath: Path, remotePath: Path): (ok: bool)
    requires b.DropboxStorage?
    ensures ok <==> localPath in world.existing && world.transfer(b, localPath, remotePath)
  {
    var attempt :=
      if localPath !in world.existing then Err(FileNotFoundError)
      else if world.transfer(b, localPath, remotePath) then Ok(true)
      else Err(SdkError);
    attempt.Ok? && attempt.value
  }

  /** The Dropbox upload as written fails on an existing file that the SDK
      would have accepted. */
  lemma DropboxUploadDefect(token: Option<string>, world: World, localPath: Path, remotePath: Path)
    requires localPath in world.existing && world.transfer(DropboxStorage(token), localPath, remotePath)
    ensures DropboxUploadIntended(DropboxStorage(token), world, localPath, remotePath)
    ensures !UploadFile(DropboxStorage(token), world, localPath, remotePath)
  {
  }

  /** `LocalStorage.list_files`: the files below the base directory,
      relative to it, in walk order.  The walk is given as the list of
      relative paths it visits (walking never raises here). */
  function ListFiles(base: Path, walked: seq<Path>): (files: seq<Path>)
    requires forall i :: 0 <= i < |walked| ==> base <= walked[i]
    ensures |files| == |walked|
    ensures forall i :: 0 <= i < |files| ==> JoinPath(base, files[i]) == walked[i]
  {
    seq(|walked|, i requires 0 <= i < |walked| => RelPath(walked[i], base))
  }

  /** One `upload_file(local_path, remote_path)` call. */
  datatype Call = Call(localPath: Path, remotePath: Path)

  /** The (local, remote) pairs of a results directory, in walk order:
      the remote path of a file is its path relative to the directory. */
  function Enumerate(resultsDir: Path, files: seq<Path>): (calls: seq<Call>)
    ensures |calls| == |files|
    ensures forall i :: 0 <= i < |files| ==>
      && calls[i].localPath == JoinPath(resultsDir, files[i])
      && resultsDir <= calls[i].localPath
      && RelPath(calls[i].localPath, resultsDir) == calls[i].remotePath
  {
    seq(|files|, i requires 0 <= i < |files| => Call(JoinPath(resultsDir, files[i]), files[i]))
  }

  /** The remote paths of a sequence of calls, in order. */
  function RemotePaths(calls: seq<Call>): (paths: seq<Path>)
    ensures |paths| == |calls|
    ensures forall i :: 0 <= i < |calls| ==> paths[i] == calls[i].remotePath
  {
    seq(|calls|, i requires 0 <= i < |calls| => calls[i].remotePath)
  }

  /** How many of the calls the backend accepts. */
  function Successes(upload: (Path, Path) -> bool, calls: seq<Call>): (n: nat)
    ensures n <= |calls|
    decreases |calls|
  {
    if |calls| == 0 then 0
    else
      var last := calls[|calls| - 1];
      Successes(upload, calls[..|calls| - 1]) + (if upload(last.localPath, last.remotePath) then 1 else 0)
  }

  /** Every call succeeded exactly when the tally reaches the number of calls. */
  lemma {:induction false} AllSucceededIff(upload: (Path, Path) -> bool, calls: seq<Call>)
    ensures Successes(upload, calls) == |calls| <==>
      forall i :: 0 <= i < |calls| ==> upload(calls[i].localPath, calls[i].remotePath)
    decreases |calls|
  {
    if |calls| > 0 {
      var prefix := calls[..|calls| - 1];
      AllSucceededIff(upload, prefix);
      assert forall i :: 0 <= i < |prefix| ==> prefix[i] == calls[i];
    }
  }

  /** The sweep of `upload_results`: list every file, then call the backend
      once per file, in listing order, counting the successes.  The
      returned `calls` is the log of backend calls made. */
  method Sweep(upload: (Path, Path) -> bool, resultsDir: Path, files: seq<Path>)
    returns (calls: seq<Call>, successCount: nat)
    ensures calls == Enumerate(resultsDir, files)
    ensures successCount == Successes(upload, calls)
    ensures successCount == |files| <==>
      forall i :: 0 <= i < |files| ==> upload(JoinPath(resultsDir, files[i]), files[i])
  {
    var resultFiles: seq<Call> := [];
    var i := 0;
    while i < |files|
      invariant 0 <= i <= |files|
      invariant resultFiles == Enumerate(resultsDir, files[..i])
    {
      resultFiles := resultFiles + [Call(JoinPath(resultsDir, files[i]), files[i])];
      i := i + 1;
    }
    assert files[..|files|] == files;

    calls := [];
    successCount := 0;
    var j := 0;
    while j < |resultFiles|
      invariant 0 <= j <= |resultFiles|
      invariant calls == resultFiles[..j]
      invariant successCount == Successes(upload, calls)
    {
      var c := resultFiles[j];
      if upload(c.localPath, c.remotePath) {
        successCount := successCount + 1;
      }
      calls := calls + [c];
      j := j + 1;
    }
    assert calls == resultFiles;
    AllSucceededIff(upload, calls);
  }

  /** A backend that accepts nothing counts no successes. */
  lemma {:induction false} NoSuccesses(upload: (Path, Path) -> bool, calls: seq<Call>)
    requires forall l, r :: !upload(l, r)
    ensures Successes(upload, calls) == 0
    decreases |calls|
  {
    if |calls| > 0 {
      NoSuccesses(upload, calls[..|calls| - 1]);
    }
  }

  /** As written, a sweep through a Dropbox client counts no success at
      all, so the upload reports success only for an empty directory. */
  lemma DropboxSweepAsWritten(token: Option<string>, world: World, resultsDir: Path, files: seq<Path>)
    ensures Successes((l, r) => UploadFile(DropboxStorage(token), world, l, r), Enumerate(resultsDir, files)) == 0
  {
    NoSuccesses((l, r) => UploadFile(DropboxStorage(token), world, l, r), Enumerate(resultsDir, files));
  }

  /** With the corrected Dropbox upload, the sweep succeeds exactly when
      every listed file exists and the SDK accepts it. */
  lemma DropboxSweepIntended(token: Option<string>, world: World, resultsDir: Path, files: seq<Path>)
    ensures Successes((l, r) => DropboxUploadIntended(DropboxStorage(token), world, l, r), Enumerate(resultsDir, files)) == |files|
      <==> forall i :: 0 <= i < |files| ==>
             && JoinPath(resultsDir, files[i]) in world.existing
             && world.transfer(DropboxStorage(token), JoinPath(resultsDir, files[i]), files[i])
  {
    AllSucceededIff((l, r) => DropboxUploadIntended(DropboxStorage(token), world, l, r), Enumerate(resultsDir, files));
  }

  /** The manifest written next to the results as "upload_summary.json". */
  datatype Manifest = Manifest(storageType: string, totalFiles: nat, successfulUploads: nat, files: seq<Path>)

  function ManifestPath(resultsDir: Path): Path {
    JoinPath(resultsDir, ["upload_summary.json"])
  }

  /** The outcome of one `upload_results` call: its return value, the
      backend calls it made, and the manifest it wrote, if any. */
  datatype UploadReport = UploadReport(success: bool, calls: seq<Call>, manifest: Option<Manifest>)

  /** The storage type recorded in the manifest: the configuration's "type"
      as given, "local" when absent. */
  function StorageType(storageConfig: Config): string {
    Lookup(storageConfig, "type").GetOr("local")
  }

  /** `get_storage_client(storage_type, **storage_config)`: a configuration
      key named "storage_type" would collide with the positional parameter. */
  function ClientOf(storageConfig: Config, world: World): Result<Backend> {
    if "storage_type" in storageConfig then Err(TypeError)
    else GetStorageClient(StorageType(storageConfig), storageConfig, world)
  }

  /** `upload_results`: every exception (an unsupported tag, a failed
      construction, an unwritable manifest) is caught and yields false. */
  method UploadResults(storageConfig: Config, resultsDir: Path, files: seq<Path>, world: World)
    returns (report: UploadReport)
    ensures ClientOf(storageConfig, world).Err? ==> report == UploadReport(false, [], None)
    ensures ClientOf(storageConfig, world).Ok? ==> report.calls == Enumerate(resultsDir, files)
    ensures report.manifest.Some? <==> ClientOf(storageConfig, world).Ok? && world.manifestWritable
    ensures report.manifest.Some? ==>
      var b := ClientOf(storageConfig, world).value;
      report.manifest.value == Manifest(
        StorageType(storageConfig),
        |files|,
        Successes((l, r) => UploadFile(b, world, l, r), report.calls),
        RemotePaths(report.calls))
    ensures report.success <==>
      && ClientOf(storageConfig, world).Ok?
      && world.manifestWritable
      && forall i :: 0 <= i < |files| ==>
           UploadFile(ClientOf(storageConfig, world).value, world, JoinPath(resultsDir, files[i]), files[i])
  {
    var client := ClientOf(storageConfig, world);
    if client.Err? {
      return UploadReport(false, [], None);
    }
    var b := client.value;
    var calls, successCount := Sweep((l, r) => UploadFile(b, world, l, r), resultsDir, files);
    if !world.manifestWritable {
      return UploadReport(false, calls, None);
    }
    var manifest := Manifest(StorageType(storageConfig), |calls|, successCount, RemotePaths(calls));
    report := UploadReport(successCount == |calls|, calls, Some(manifest));
  }
}
