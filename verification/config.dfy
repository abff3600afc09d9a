/** The `KEY=VALUE` configuration file both revisions of the receiver read,
    line by line: a line without `=` is skipped, the key is the text before
    the first `=`, the value the rest, and a later line with the same key
    wins. Opening and scanning the file is outside the model: the file is
    given as its lines, or as the error opening it. */
module ConfigLines {
  import opened Wrappers
  import opened GoStrings
  import opened KeyValueText

  /** The reading loop as the Go code writes it: `strings.Split(line, "=")`,
      fewer than two pieces skipped, the first piece the key, the others
      re-joined with `=` the value. */
  function ReadLines(lines: seq<string>): map<string, string>
    decreases |lines|
  {
    if lines == [] then map[]
    else
      var m := ReadLines(lines[..|lines| - 1]);
      var parts := Split(lines[|lines| - 1], '=');
      if |parts| < 2 then m else m[parts[0] := Join(parts[1..], '=')]
  }

  /** The loop reads what `KeyValueText` describes with bare entries
      skipped: exactly the keys of the lines holding `=`, each with the value
      of its last line. */
  lemma {:induction false} ReadLinesDescribed(lines: seq<string>)
    ensures ReadLines(lines) == Assignments(lines, false)
    decreases |lines|
  {
    if lines != [] {
      var init, e := lines[..|lines| - 1], lines[|lines| - 1];
      ReadLinesDescribed(init);
      EntrySplitsAtFirst(e);
      if '=' in e {
        SplitHeadTail(e, '=');
      } else {
        SplitWhole(e, '=');
      }
    }
  }

  /** The keys read are the keys of the lines holding `=`, and none of them
      holds `=`. */
  lemma ReadKeys(lines: seq<string>)
    ensures ReadLines(lines).Keys == KeysIn(lines, false)
    ensures forall k | k in ReadLines(lines) :: '=' !in k
  {
    ReadLinesDescribed(lines);
    AssignedKeys(lines, false);
  }

  /** A line appended after the others sets its key to its value, later
      `=` included, whatever came before. */
  lemma LastLineWins(lines: seq<string>, k: string, v: string)
    requires '=' !in k
    ensures ReadLines(lines + [k + "=" + v]) == ReadLines(lines)[k := v]
  {
    var e := k + "=" + v;
    assert (lines + [e])[..|lines|] == lines;
    EntryOf(k, v);
    EntrySplitsAtFirst(e);
    assert '=' in e by { assert e[|k|] == '='; }
    SplitHeadTail(e, '=');
  }

  /** A line without `=` changes nothing. */
  lemma BareLineSkipped(lines: seq<string>, e: string)
    requires '=' !in e
    ensures ReadLines(lines + [e]) == ReadLines(lines)
  {
    assert (lines + [e])[..|lines|] == lines;
    SplitWhole(e, '=');
  }

  /** `loadConfigFromFile`, the same in both revisions: the lines read, or
      the error opening the file. */
  function LoadConfigFromFile(filePath: string, file: Result<seq<string>>): (r: Result<map<string, string>>)
    ensures file.Err? ==> r == Err(Wrap("Failed to open " + filePath + ".", file.msg))
    ensures file.Ok? ==> r == Ok(ReadLines(file.value))
  {
    match file
    case Err(cause) => Err(Wrap("Failed to open " + filePath + ".", cause))
    case Ok(lines) => Ok(ReadLines(lines))
  }

  /** A name missing from the file reads as Go's zero value `""`. */
  function Lookup(m: map<string, string>, name: string): (v: string)
    ensures name !in m ==> v == ""
    ensures name in m ==> v == m[name]
  {
    if name in m then m[name] else ""
  }
}

/** The configuration of `receiver/config/config.go`: seven settings, the
    environment's values replaced wholesale by the file's when the file
    exists, `MaxAppDeploy` parsed as a 64-bit integer. */
module Config {
  import opened Wrappers
  import opened GoStrconv
  import opened ConfigLines

  const ConfigFilePath: string := "/paus/config"
  const MaxAppDeployName: string := "MaxAppDeploy"

  datatype Config = Config(
    baseDomain: string,
    dockerHost: string,
    etcdEndpoint: string,
    maxAppDeploy: int,
    registryDomain: string,
    repositoryDir: string,
    uriScheme: string)

  /** `configNames`, in order. */
  const ConfigNames: seq<string> :=
    ["BaseDomain", "DockerHost", "EtcdEndpoint", "MaxAppDeploy", "RegistryDomain", "RepositoryDir", "URIScheme"]

  /** The string setting a name selects by reflection. */
  function Field(c: Config, name: string): Option<string>
  {
    match name
    case "BaseDomain" => Some(c.baseDomain)
    case "DockerHost" => Some(c.dockerHost)
    case "EtcdEndpoint" => Some(c.etcdEndpoint)
    case "RegistryDomain" => Some(c.registryDomain)
    case "RepositoryDir" => Some(c.repositoryDir)
    case "URIScheme" => Some(c.uriScheme)
    case _ => None
  }

  /** `FieldByName(name).SetString(v)`. */
  function SetField(c: Config, name: string, v: string): (r: Config)
    ensures Field(c, name).Some? ==> Field(r, name) == Some(v)
    ensures forall other | other != name :: Field(r, other) == Field(c, other)
    ensures r.maxAppDeploy == c.maxAppDeploy
  {
    match name
    case "BaseDomain" => c.(baseDomain := v)
    case "DockerHost" => c.(dockerHost := v)
    case "EtcdEndpoint" => c.(etcdEndpoint := v)
    case "RegistryDomain" => c.(registryDomain := v)
    case "RepositoryDir" => c.(repositoryDir := v)
    case "URIScheme" => c.(uriScheme := v)
    case _ => c
  }

  /** The error `strconv.ParseInt` reports for `s`, given its failed parse
      `n`: a syntax error leaves 0, a range error the clamped bound. */
  function ParseIntError(s: string, n: Parsed): string
  {
    "strconv.ParseInt: parsing \"" + s + "\": " + (if n.value == 0 then "invalid syntax" else "value out of range")
  }

  /** The error for a `MaxAppDeploy` value `v` that failed to parse as `n`. */
  function MaxAppDeployError(v: string, n: Parsed): string
  {
    Wrap("Failed to parse " + MaxAppDeployName + " as integer. value: " + v, ParseIntError(v, n))
  }

  /** The loop over `names`: string settings copied from the file, and at
      `MaxAppDeploy` the parse `n` of the file's value, whose failure ends
      the load. */
  function Override(c: Config, fromFile: map<string, string>, names: seq<string>, n: Parsed): Result<Config>
    decreases |names|
  {
    if names == [] then Ok(c)
    else
      var name, v := names[0], Lookup(fromFile, names[0]);
      if name == MaxAppDeployName then
        if !n.ok then Err(MaxAppDeployError(v, n))
        else Override(c.(maxAppDeploy := n.value), fromFile, names[1..], n)
      else Override(SetField(c, name, v), fromFile, names[1..], n)
  }

  /** `LoadConfig`, given what the environment gave, whether the file
      exists, and the file. */
  function LoadConfig(fromEnv: Result<Config>, fileExists: bool, file: Result<seq<string>>): (r: Result<Config>)
    ensures fromEnv.Err? ==> r == Err(Wrap("Failed to load config from envs.", fromEnv.msg))
    ensures fromEnv.Ok? && !fileExists ==> r == fromEnv
    ensures fromEnv.Ok? && fileExists && file.Err? ==> r == Err(Wrap("Failed to open " + ConfigFilePath + ".", file.msg))
  {
    if fromEnv.Err? then Err(Wrap("Failed to load config from envs.", fromEnv.msg))
    else if !fileExists then fromEnv
    else
      match LoadConfigFromFile(ConfigFilePath, file)
      case Err(e) => Err(e)
      case Ok(fromFile) => Override(fromEnv.value, fromFile, ConfigNames, ParseInt64(Lookup(fromFile, MaxAppDeployName)))
  }

  /** With the file present, every setting comes from it: each string
      setting is the file's value (`""` when absent), `MaxAppDeploy` is the
      parsed file value, and a value that does not parse (an absent one
      included) is an error naming it. Nothing of the environment's
      configuration survives. */
  lemma FileOverridesAll(env: Config, lines: seq<string>)
    ensures var r := LoadConfig(Ok(env), true, Ok(lines));
      var m := ReadLines(lines);
      var v := Lookup(m, MaxAppDeployName);
      (r.Ok? <==> ParseInt64(v).ok)
      && (r.Ok? ==>
            r.value == Config(Lookup(m, "BaseDomain"), Lookup(m, "DockerHost"), Lookup(m, "EtcdEndpoint"),
                              ParseInt64(v).value, Lookup(m, "RegistryDomain"), Lookup(m, "RepositoryDir"),
                              Lookup(m, "URIScheme")))
      && (r.Err? ==> r.msg == MaxAppDeployError(v, ParseInt64(v)))
  {
    var m := ReadLines(lines);
    OverrideAll(env, m, ParseInt64(Lookup(m, MaxAppDeployName)));
  }

  lemma OverrideAll(c: Config, m: map<string, string>, n: Parsed)
    ensures var v := Lookup(m, MaxAppDeployName);
      Override(c, m, ConfigNames, n)
      == if n.ok then
           Ok(Config(Lookup(m, "BaseDomain"), Lookup(m, "DockerHost"), Lookup(m, "EtcdEndpoint"),
                     n.value, Lookup(m, "RegistryDomain"), Lookup(m, "RepositoryDir"), Lookup(m, "URIScheme")))
         else Err(MaxAppDeployError(v, n))
  {
    var names := ConfigNames;
    var c3 := c.(baseDomain := Lookup(m, "BaseDomain"), dockerHost := Lookup(m, "DockerHost"),
                 etcdEndpoint := Lookup(m, "EtcdEndpoint"));
    OverrideFirstThree(c, m, n);
    OverrideMiddle(c3, m, n);
    if n.ok {
      OverrideLastThree(c3.(maxAppDeploy := n.value), m, n);
    }
  }

  lemma OverrideMiddle(c: Config, m: map<string, string>, n: Parsed)
    ensures var v := Lookup(m, MaxAppDeployName);
      Override(c, m, ConfigNames[3..], n)
      == if n.ok then Override(c.(maxAppDeploy := n.value), m, ConfigNames[4..], n)
         else Err(MaxAppDeployError(v, n))
  {
    var names := ConfigNames[3..];
    assert names[0] == MaxAppDeployName && names[1..] == ConfigNames[4..];
  }

  lemma OverrideFirstThree(c: Config, m: map<string, string>, n: Parsed)
    ensures Override(c, m, ConfigNames, n)
      == Override(c.(baseDomain := Lookup(m, "BaseDomain"), dockerHost := Lookup(m, "DockerHost"),
                     etcdEndpoint := Lookup(m, "EtcdEndpoint")), m, ConfigNames[3..], n)
  {
    var names := ConfigNames;
    assert names[1..][1..][1..] == names[3..];
    assert names[0] == "BaseDomain" && names[1..][0] == "DockerHost" && names[1..][1..][0] == "EtcdEndpoint";
    var c1 := SetField(c, "BaseDomain", Lookup(m, "BaseDomain"));
    assert c1 == c.(baseDomain := Lookup(m, "BaseDomain"));
    var c2 := SetField(c1, "DockerHost", Lookup(m, "DockerHost"));
    assert c2 == c1.(dockerHost := Lookup(m, "DockerHost"));
    var c3 := SetField(c2, "EtcdEndpoint", Lookup(m, "EtcdEndpoint"));
    assert c3 == c2.(etcdEndpoint := Lookup(m, "EtcdEndpoint"));
    assert Override(c, m, names, n) == Override(c1, m, names[1..], n);
    assert Override(c1, m, names[1..], n) == Override(c2, m, names[1..][1..], n);
    assert Override(c2, m, names[1..][1..], n) == Override(c3, m, names[1..][1..][1..], n);
  }

  lemma OverrideLastThree(c: Config, m: map<string, string>, n: Parsed)
    ensures Override(c, m, ConfigNames[4..], n)
      == Ok(c.(registryDomain := Lookup(m, "RegistryDomain"), repositoryDir := Lookup(m, "RepositoryDir"),
               uriScheme := Lookup(m, "URIScheme")))
  {
    var names := ConfigNames[4..];
    assert names == ["RegistryDomain", "RepositoryDir", "URIScheme"];
    assert names[1..] == ["RepositoryDir", "URIScheme"] && names[1..][1..] == ["URIScheme"];
    assert names[1..][1..][1..] == [];
    var c1 := SetField(c, "RegistryDomain", Lookup(m, "RegistryDomain"));
    assert c1 == c.(registryDomain := Lookup(m, "RegistryDomain"));
    var c2 := SetField(c1, "RepositoryDir", Lookup(m, "RepositoryDir"));
    assert c2 == c1.(repositoryDir := Lookup(m, "RepositoryDir"));
    var c3 := SetField(c2, "URIScheme", Lookup(m, "URIScheme"));
    assert c3 == c2.(uriScheme := Lookup(m, "URIScheme"));
    assert Override(c, m, names, n) == Override(c1, m, names[1..], n);
    assert Override(c1, m, names[1..], n) == Override(c2, m, names[1..][1..], n);
    assert Override(c2, m, names[1..][1..], n) == Override(c3, m, names[1..][1..][1..], n);
  }

  /** A missing `MaxAppDeploy` line makes the load fail. */
  lemma MissingMaxAppDeployFails(env: Config, lines: seq<string>)
    requires MaxAppDeployName !in ReadLines(lines)
    ensures LoadConfig(Ok(env), true, Ok(lines)).Err?
  {
    FileOverridesAll(env, lines);
    assert !ParseInt64("").ok;
  }
}

/** The configuration of the older `receiver/config.go`: four string
    settings, all replaced by the file's when it exists, and a file error
    wrapped once more with the path. */
module LegacyConfig {
  import opened Wrappers
  import opened ConfigLines

  const ConfigFilePath: string := "/paus/config"

  datatype Config = Config(baseDomain: string, dockerHost: string, etcdEndpoint: string, repositoryDir: string)

  /** `ConfigNames`, in order. */
  const ConfigNames: seq<string> := ["BaseDomain", "DockerHost", "EtcdEndpoint", "RepositoryDir"]

  function SetField(c: Config, name: string, v: string): Config
  {
    match name
    case "BaseDomain" => c.(baseDomain := v)
    case "DockerHost" => c.(dockerHost := v)
    case "EtcdEndpoint" => c.(etcdEndpoint := v)
    case "RepositoryDir" => c.(repositoryDir := v)
    case _ => c
  }

  function Override(c: Config, fromFile: map<string, string>, names: seq<string>): Config
    decreases |names|
  {
    if names == [] then c else Override(SetField(c, names[0], Lookup(fromFile, names[0])), fromFile, names[1..])
  }

  /** `LoadConfig`. */
  function LoadConfig(fromEnv: Result<Config>, fileExists: bool, file: Result<seq<string>>): (r: Result<Config>)
    ensures fromEnv.Err? ==> r == Err(Wrap("Failed to load config from envs.", fromEnv.msg))
    ensures fromEnv.Ok? && !fileExists ==> r == fromEnv
    ensures fromEnv.Ok? && fileExists && file.Err? ==>
      r == Err(Wrap("Failed to load config from file. path: " + ConfigFilePath,
                    Wrap("Failed to open " + ConfigFilePath + ".", file.msg)))
    ensures fromEnv.Ok? && fileExists && file.Ok? ==> r.Ok?
  {
    if fromEnv.Err? then Err(Wrap("Failed to load config from envs.", fromEnv.msg))
    else if !fileExists then fromEnv
    else
      match LoadConfigFromFile(ConfigFilePath, file)
      case Err(e) => Err(Wrap("Failed to load config from file. path: " + ConfigFilePath, e))
      case Ok(fromFile) => Ok(Override(fromEnv.value, fromFile, ConfigNames))
  }

  /** With the file present, all four settings are the file's values, `""`
      for those it lacks. */
  lemma FileOverridesAll(env: Config, lines: seq<string>)
    ensures var m := ReadLines(lines);
      LoadConfig(Ok(env), true, Ok(lines))
      == Ok(Config(Lookup(m, "BaseDomain"), Lookup(m, "DockerHost"), Lookup(m, "EtcdEndpoint"), Lookup(m, "RepositoryDir")))
  {
    var m := ReadLines(lines);
    var names := ConfigNames;
    assert names[1..][1..][1..][1..] == [];
  }
}
