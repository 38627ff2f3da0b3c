/** Configuration loading: environment lookup with a default, and the
    module-level configuration value that falls back to an empty mapping. */
module Settings {
  import opened Wrappers

  /** The process environment, as a map from variable name to value. */
  type Environment = map<string, string>

  /** Looks a variable up; an unset variable takes the default, and an unset
      variable without a default is an error.  Only "no value at all" is an
      error: a variable set to the empty string is returned as it is. */
  function GetEnvVariable(env: Environment, name: string, default: Option<string>): (r: Result<string>)
    ensures name in env ==> r == Ok(env[name])
    ensures name !in env ==> (r.Ok? <==> default.Some?)
    ensures name !in env && default.Some? ==> r == Ok(default.value)
    ensures r.Err? ==> r.exc == ValueError
  {
    var value := if name in env then Some(env[name]) else default;
    if value.None? then Err(ValueError) else Ok(value.value)
  }

  /** The empty string is a value like any other: it wins over the default
      and does not raise. */
  lemma EmptyValueCountsAsSet(env: Environment, name: string, default: Option<string>)
    requires name in env && env[name] == ""
    ensures GetEnvVariable(env, name, default) == Ok("")
  {
  }

  /** What `yaml.safe_load` produced: an empty document loads as null. */
  datatype YamlValue = Null | Mapping(entries: map<string, string>)

  /** The state of the configuration file on disk. */
  datatype ConfigFile = Missing | Malformed | Document(parsed: YamlValue)

  /** Loads the configuration file: PyYAML must be installed, the file must
      exist, and a YAML syntax error is reported as a ValueError. */
  function LoadConfig(yamlInstalled: bool, file: ConfigFile): (r: Result<YamlValue>)
    ensures r.Ok? <==> yamlInstalled && file.Document?
    ensures r.Ok? ==> r.value == file.parsed
    ensures !yamlInstalled ==> r == Err(ImportError)
    ensures yamlInstalled && file.Missing? ==> r == Err(FileNotFoundError)
    ensures yamlInstalled && file.Malformed? ==> r == Err(ValueError)
  {
    if !yamlInstalled then Err(ImportError)
    else match file
      case Missing => Err(FileNotFoundError)
      case Malformed => Err(ValueError)
      case Document(v) => Ok(v)
  }

  /** The module-level configuration: a missing library or a missing file
      yields the empty mapping, while a malformed file still propagates (the
      fallback catches only FileNotFoundError and ImportError), so importing
      the settings module fails. */
  function GlobalConfig(yamlInstalled: bool, file: ConfigFile): (r: Result<YamlValue>)
    ensures !yamlInstalled || file.Missing? ==> r == Ok(Mapping(map[]))
    ensures r.Err? <==> yamlInstalled && file.Malformed?
    ensures r.Err? ==> r.exc == ValueError
    ensures yamlInstalled && file.Document? ==> r == Ok(file.parsed)
  {
    match LoadConfig(yamlInstalled, file)
    case Ok(c) => Ok(c)
    case Err(e) =>
      if e == FileNotFoundError || e == ImportError then Ok(Mapping(map[])) else Err(e)
  }
}
