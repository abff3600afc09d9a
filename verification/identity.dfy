/** The commit metadata derived from the arguments of a push
    (`receiver/commit_metadata.go`): `args` is `[repository, revision,
    username, …]`. */
module CommitMetadata {
  import opened GoStrings

  datatype CommitMetadata = CommitMetadata(
    repository: string,
    revision: string,
    username: string,
    appName: string,
    projectName: string)

  /** The repository argument with every `/` turned into `-`. */
  predicate IsRepositoryOf(repository: string, arg: string)
  {
    |repository| == |arg| &&
    forall i | 0 <= i < |arg| :: repository[i] == (if arg[i] == '/' then '-' else arg[i])
  }

  /** The app name: `username-` removed where it first occurs in the
      repository, wherever that is. */
  predicate IsAppNameOf(appName: string, repository: string, username: string)
  {
    var pat := username + "-";
    match Index(repository, pat)
    case None => appName == repository
    case Some(j) => appName == repository[..j] + repository[j + |pat|..]
  }

  lemma RepositoryOfArg(arg: string)
    ensures IsRepositoryOf(ReplaceChar(arg, '/', '-'), arg) && '/' !in ReplaceChar(arg, '/', '-')
  {
  }

  /** `NewCommitMetadataFromArgs`. Go indexes `args[2]` and slices
      `revision[0:8]` without checks, so both are required here. */
  function FromArgs(args: seq<string>): (r: CommitMetadata)
    requires |args| >= 3 && |args[1]| >= 8
    ensures IsRepositoryOf(r.repository, args[0]) && '/' !in r.repository
    ensures r.revision == args[1] && r.username == args[2]
    ensures IsAppNameOf(r.appName, r.repository, r.username)
    ensures HasPrefix(r.repository, r.username + "-") ==> r.repository == r.username + "-" + r.appName
    ensures r.projectName == r.repository + "-" + args[1][..8]
  {
    var repository := ReplaceChar(args[0], '/', '-');
    var pat := args[2] + "-";
    RepositoryOfArg(args[0]);
    if HasPrefix(repository, pat) then
      ReplaceFirstPrefix(repository, pat);
      CommitMetadata(repository, args[1], args[2], ReplaceFirst(repository, pat, ""), repository + "-" + args[1][..8])
    else
      CommitMetadata(repository, args[1], args[2], ReplaceFirst(repository, pat, ""), repository + "-" + args[1][..8])
  }

  /** `user/app` pushed by `user` gives repository `user-app`, app name `app`
      and project `user-app-` plus the short revision. */
  lemma PushByOwner(user: string, app: string, revision: string)
    requires '/' !in user && '/' !in app && |revision| >= 8
    ensures FromArgs([user + "/" + app, revision, user])
         == CommitMetadata(user + "-" + app, revision, user, app, user + "-" + app + "-" + revision[..8])
  {
    var arg := user + "/" + app;
    var r := FromArgs([arg, revision, user]);
    assert r.repository == user + "-" + app by {
      assert forall i | 0 <= i < |arg| :: r.repository[i] == (user + "-" + app)[i];
    }
    assert HasPrefix(r.repository, user + "-");
  }

  /** Two revisions with the same first eight characters name the same
      project. */
  lemma ShortRevisionDecides(args: seq<string>, revision: string)
    requires |args| >= 3 && |args[1]| >= 8 && |revision| >= 8
    requires revision[..8] == args[1][..8]
    ensures FromArgs(args[1 := revision]).projectName == FromArgs(args).projectName
  {
  }
}

/** The application record of `receiver/model/application.go` and the
    per-application settings it reads from and writes to the store. */
module Application {
  import opened Wrappers
  import opened GoStrings
  import opened GoStrconv
  import opened KeyValueStore
  import CommitMetadata

  const UsersRoot: string := "/paus/users/"
  const AppsInfix: string := "/apps/"
  const BuildArgsSuffix: string := "/build-args/"
  const EnvsSuffix: string := "/envs/"
  const RevisionsInfix: string := "/revisions/"
  const EnvsChild: string := "/envs"
  const RevisionsChild: string := "/revisions"
  const BuildArgKeysError: string := "Failed to get build arg keys."
  const BuildArgValueError: string := "Failed to get build arg value. key: "
  const EnvKeysError: string := "Failed to get environment variable keys."
  const EnvValueError: string := "Failed to get environment variable value. key: "
  const RevisionError: string := "Failed to set revisdion."

  datatype Application = Application(
    repository: string,
    revision: string,
    username: string,
    appName: string,
    projectName: string)

  /** `ApplicationFromArgs`: the same derivation as the commit metadata.
      `args[0]` is read without a length check, so the arguments are
      required. */
  function FromArgs(args: seq<string>): (r: Application)
    requires |args| >= 3 && |args[1]| >= 8
    ensures CommitMetadata.IsRepositoryOf(r.repository, args[0])
    ensures r.revision == args[1] && r.username == args[2]
    ensures CommitMetadata.IsAppNameOf(r.appName, r.repository, r.username)
    ensures r.projectName == r.repository + "-" + args[1][..8]
  {
    var repository := ReplaceChar(args[0], '/', '-');
    var appName := ReplaceFirst(repository, args[2] + "-", "");
    Application(repository, args[1], args[2], appName, repository + "-" + args[1][..8])
  }

  /** Both derivations of the push identity agree field by field. */
  lemma AgreesWithCommitMetadata(args: seq<string>)
    requires |args| >= 3 && |args[1]| >= 8
    ensures var a := FromArgs(args);
            var c := CommitMetadata.FromArgs(args);
            a.repository == c.repository && a.revision == c.revision && a.username == c.username
            && a.appName == c.appName && a.projectName == c.projectName
  {
    var a := FromArgs(args);
    var c := CommitMetadata.FromArgs(args);
    assert a.repository == c.repository by {
      assert forall i | 0 <= i < |a.repository| :: a.repository[i] == c.repository[i];
    }
  }

  // ------------------------------------------------------------ store layout

  function UserDirectory(username: string): string
  {
    UsersRoot + username
  }

  function AppDirectory(app: Application): string
  {
    UserDirectory(app.username) + AppsInfix + app.appName
  }

  function BuildArgsDirectory(app: Application): string
  {
    AppDirectory(app) + BuildArgsSuffix
  }

  function EnvsDirectory(app: Application): string
  {
    AppDirectory(app) + EnvsSuffix
  }

  function RevisionKey(app: Application): string
  {
    AppDirectory(app) + RevisionsInfix + app.revision
  }

  /** A listed key's setting name: the first occurrence of the directory
      removed. */
  function SettingName(key: string, dir: string): string
  {
    ReplaceFirst(key, dir, "")
  }

  /** No later key in the listing carries the same setting name. */
  predicate LastWithName(keys: seq<string>, dir: string, i: nat)
    requires i < |keys|
  {
    forall j | i < j < |keys| :: SettingName(keys[j], dir) != SettingName(keys[i], dir)
  }

  /** Every listed key can be read. */
  predicate AllReadable(st: Store, keys: seq<string>)
  {
    forall i | 0 <= i < |keys| :: HasKey(st, keys[i])
  }

  /** The setting names of a listing. */
  function SettingNames(keys: seq<string>, dir: string): set<string>
  {
    set i | 0 <= i < |keys| :: SettingName(keys[i], dir)
  }

  /** `m` holds one entry per setting name of the listing, with the value of
      the last key carrying that name. */
  predicate ReadInto(st: Store, keys: seq<string>, dir: string, m: map<string, string>)
  {
    m.Keys == SettingNames(keys, dir)
    && forall i | 0 <= i < |keys| && LastWithName(keys, dir, i) ::
         SettingName(keys[i], dir) in m && Get(st, keys[i]) == Ok(m[SettingName(keys[i], dir)])
  }

  /** The position of the first key that cannot be read, if any. */
  function FirstUnreadable(st: Store, keys: seq<string>): (r: Option<nat>)
    ensures r.None? <==> AllReadable(st, keys)
    ensures r.Some? ==> r.value < |keys| && !HasKey(st, keys[r.value])
    ensures r.Some? ==> forall j | 0 <= j < r.value :: HasKey(st, keys[j])
    decreases |keys|
  {
    if keys == [] then None
    else if !HasKey(st, keys[0]) then Some(0)
    else
      match FirstUnreadable(st, keys[1..])
      case None => None
      case Some(i) => Some(i + 1)
  }

  /** The first unreadable key of a listing is that of all but its last key,
      or else the last key. */
  lemma FirstUnreadableInit(st: Store, keys: seq<string>)
    requires |keys| > 0
    ensures var init := keys[..|keys| - 1];
      FirstUnreadable(st, keys)
      == if FirstUnreadable(st, init).Some? then FirstUnreadable(st, init)
         else if HasKey(st, keys[|keys| - 1]) then None
         else Some(|keys| - 1)
  {
    var init := keys[..|keys| - 1];
    assert forall j | 0 <= j < |init| :: init[j] == keys[j];
  }

  /** The setting names of a listing with one more key. */
  lemma SettingNamesAppend(init: seq<string>, k: string, dir: string)
    ensures SettingNames(init + [k], dir) == SettingNames(init, dir) + {SettingName(k, dir)}
  {
    var keys := init + [k];
    var all, before := SettingNames(keys, dir), SettingNames(init, dir);
    forall x | x in all
      ensures x in before + {SettingName(k, dir)}
    {
      var i :| 0 <= i < |keys| && SettingName(keys[i], dir) == x;
      if i < |init| {
        assert init[i] == keys[i];
      }
    }
    forall x | x in before + {SettingName(k, dir)}
      ensures x in all
    {
      if x == SettingName(k, dir) {
        assert keys[|init|] == k;
      } else {
        var i :| 0 <= i < |init| && SettingName(init[i], dir) == x;
        assert keys[i] == init[i];
      }
    }
  }

  /** One more key read into the map keeps the map's promise. */
  lemma CollectStep(st: Store, init: seq<string>, k: string, dir: string, m: map<string, string>)
    requires HasKey(st, k)
    requires ReadInto(st, init, dir, m)
    ensures ReadInto(st, init + [k], dir, m[SettingName(k, dir) := Get(st, k).value])
  {
    var keys := init + [k];
    var r := m[SettingName(k, dir) := Get(st, k).value];
    SettingNamesAppend(init, k, dir);
    forall i | 0 <= i < |keys| && LastWithName(keys, dir, i)
      ensures SettingName(keys[i], dir) in r && Get(st, keys[i]) == Ok(r[SettingName(keys[i], dir)])
    {
      if i < |init| {
        assert keys[i] == init[i];
        assert SettingName(keys[|init|], dir) != SettingName(keys[i], dir);
        assert LastWithName(init, dir, i) by {
          forall j | i < j < |init|
            ensures SettingName(init[j], dir) != SettingName(init[i], dir)
          {
            assert keys[j] == init[j];
          }
        }
      }
    }
  }

  /** Reading every listed key, in order, into a map; the first unreadable
      key aborts with an error naming it. */
  function Collect(st: Store, keys: seq<string>, dir: string, what: string): (r: Result<map<string, string>>)
    ensures r.Ok? <==> FirstUnreadable(st, keys).None?
    ensures r.Err? ==> var i := FirstUnreadable(st, keys).value;
      r.msg == Wrap(what + keys[i], Get(st, keys[i]).msg)
    ensures r.Ok? ==> ReadInto(st, keys, dir, r.value)
    decreases |keys|
  {
    if keys == [] then Ok(map[])
    else
      var init := keys[..|keys| - 1];
      var k := keys[|keys| - 1];
      FirstUnreadableInit(st, keys);
      match Collect(st, init, dir, what)
      case Err(e) =>
        assert init[FirstUnreadable(st, init).value] == keys[FirstUnreadable(st, init).value];
        Err(e)
      case Ok(m) =>
        match Get(st, k)
        case Err(e) => Err(Wrap(what + k, e))
        case Ok(v) =>
          InitLast(keys);
          CollectStep(st, init, k, dir, m);
          Ok(m[SettingName(k, dir) := v])
  }

  /** What reading a settings directory promises: no directory means no
      settings; a failed listing or read is a wrapped error; otherwise one
      entry per setting name, the last listed key winning. */
  predicate ReadsSettings(app: Application, st: Store, dir: string, listWhat: string, getWhat: string,
                          r: Result<map<string, string>>)
  {
    if !HasKey(st, UserDirectory(app.username)) || !HasKey(st, AppDirectory(app)) || !HasKey(st, dir) then
      r == Ok(map[])
    else if List(st, dir).Err? then
      r == Err(Wrap(listWhat, List(st, dir).msg))
    else
      var keys := List(st, dir).value;
      (r.Ok? <==> AllReadable(st, keys))
      && (r.Err? ==> var i := FirstUnreadable(st, keys).value;
            r.msg == Wrap(getWhat + keys[i], Get(st, keys[i]).msg))
      && (r.Ok? ==> ReadInto(st, keys, dir, r.value))
  }

  /** `BuildArgs` with its result map created before the first write (see
      `BuildArgsAsWritten` for the code as it stands). */
  function BuildArgs(app: Application, st: Store): (r: Result<map<string, string>>)
    ensures ReadsSettings(app, st, BuildArgsDirectory(app), BuildArgKeysError,
                          BuildArgValueError, r)
  {
    ReadSettings(app, st, BuildArgsDirectory(app), BuildArgKeysError,
                 BuildArgValueError)
  }

  /** `EnvironmentVariables`, with the same correction as `BuildArgs`. */
  function EnvironmentVariables(app: Application, st: Store): (r: Result<map<string, string>>)
    ensures ReadsSettings(app, st, EnvsDirectory(app), EnvKeysError,
                          EnvValueError, r)
  {
    ReadSettings(app, st, EnvsDirectory(app), EnvKeysError,
                 EnvValueError)
  }

  function ReadSettings(app: Application, st: Store, dir: string, listWhat: string, getWhat: string)
    : (r: Result<map<string, string>>)
    ensures ReadsSettings(app, st, dir, listWhat, getWhat, r)
  {
    if !HasKey(st, UserDirectory(app.username)) then Ok(map[])
    else if !HasKey(st, AppDirectory(app)) then Ok(map[])
    else if !HasKey(st, dir) then Ok(map[])
    else
      match List(st, dir)
      case Err(e) => Err(Wrap(listWhat, e))
      case Ok(keys) => Collect(st, keys, dir, getWhat)
  }

  // ------------------------------------------------- the code as it stands

  /** A Go call that either returns or panics. */
  datatype Run<T> = Returned(result: Result<T>) | Panicked

  /** The user, application and settings directories exist, the listing
      of `dir` succeeds and its first key is readable: the point where the
      code as written first writes into its map. */
  predicate FirstSettingReads(app: Application, st: Store, dir: string)
  {
    HasKey(st, UserDirectory(app.username)) && HasKey(st, AppDirectory(app)) && HasKey(st, dir)
    && List(st, dir).Ok? && List(st, dir).value != [] && HasKey(st, List(st, dir).value[0])
  }

  /** The loop shared by `BuildArgs` and `EnvironmentVariables` as written:
      the result map is declared but never created, so the first successful
      read panics on the write into it. It panics exactly when the
      directories exist, the listing succeeds and its first key is
      readable. */
  function ReadSettingsAsWritten(app: Application, st: Store, dir: string, listWhat: string, getWhat: string)
    : (r: Run<map<string, string>>)
    ensures r.Panicked? <==> FirstSettingReads(app, st, dir)
    ensures r.Returned? ==> r.result == ReadSettings(app, st, dir, listWhat, getWhat)
  {
    if !HasKey(st, UserDirectory(app.username)) || !HasKey(st, AppDirectory(app)) || !HasKey(st, dir) then
      Returned(Ok(map[]))
    else
      match List(st, dir)
      case Err(e) => Returned(Err(Wrap(listWhat, e)))
      case Ok(keys) =>
        if keys == [] then Returned(Ok(map[]))
        else if !HasKey(st, keys[0]) then
          Returned(Collect(st, keys, dir, getWhat))
        else Panicked
  }

  /** `BuildArgs` as written. */
  function BuildArgsAsWritten(app: Application, st: Store): (r: Run<map<string, string>>)
    ensures r.Panicked? <==> FirstSettingReads(app, st, BuildArgsDirectory(app))
    ensures r.Returned? ==> r.result == BuildArgs(app, st)
    ensures r.Panicked? ==> BuildArgs(app, st).Ok? ==> BuildArgs(app, st).value != map[]
  {
    var r := ReadSettingsAsWritten(app, st, BuildArgsDirectory(app), BuildArgKeysError, BuildArgValueError);
    if r.Panicked? then
      SettingOfFirstKey(app, st, BuildArgsDirectory(app), BuildArgKeysError, BuildArgValueError);
      r
    else r
  }

  /** `EnvironmentVariables` as written, with the same nil map. */
  function EnvironmentVariablesAsWritten(app: Application, st: Store): (r: Run<map<string, string>>)
    ensures r.Panicked? <==> FirstSettingReads(app, st, EnvsDirectory(app))
    ensures r.Returned? ==> r.result == EnvironmentVariables(app, st)
    ensures r.Panicked? ==> EnvironmentVariables(app, st).Ok? ==> EnvironmentVariables(app, st).value != map[]
  {
    var r := ReadSettingsAsWritten(app, st, EnvsDirectory(app), EnvKeysError, EnvValueError);
    if r.Panicked? then
      SettingOfFirstKey(app, st, EnvsDirectory(app), EnvKeysError, EnvValueError);
      r
    else r
  }

  /** When the code as written panics, the corrected reading, if it
      succeeds, has read at least the first key's setting. */
  lemma SettingOfFirstKey(app: Application, st: Store, dir: string, listWhat: string, getWhat: string)
    requires ReadSettingsAsWritten(app, st, dir, listWhat, getWhat).Panicked?
    ensures var r := ReadSettings(app, st, dir, listWhat, getWhat);
      r.Ok? ==> SettingName(List(st, dir).value[0], dir) in r.value
  {
    var keys := List(st, dir).value;
    assert SettingName(keys[0], dir) in SettingNames(keys, dir);
  }

  /** A user, app and build-args directory holding one readable setting is
      enough to make the code as written panic, where the corrected reading
      returns that setting. */
  lemma BuildArgsAsWrittenPanics(app: Application, name: string, value: string)
    ensures var dir := BuildArgsDirectory(app);
            var key := dir + name;
            var st := Store(map[key := value],
                            {UserDirectory(app.username), AppDirectory(app), dir},
                            map[dir := [key]], {}, "");
            BuildArgsAsWritten(app, st) == Panicked
            && BuildArgs(app, st) == Ok(map[SettingName(key, dir) := value])
  {
    var dir := BuildArgsDirectory(app);
    var key := dir + name;
    var st := Store(map[key := value], {UserDirectory(app.username), AppDirectory(app), dir},
                    map[dir := [key]], {}, "");
    var r := BuildArgs(app, st);
    assert LastWithName([key], dir, 0);
    assert r.value.Keys == {SettingName(key, dir)} by {
      assert (set i | 0 <= i < |[key]| :: SettingName([key][i], dir)) == {SettingName(key, dir)};
    }
  }

  /** Likewise one readable environment variable makes
      `EnvironmentVariables` as written panic, where the corrected reading
      returns that variable. */
  lemma EnvironmentVariablesAsWrittenPanics(app: Application, name: string, value: string)
    ensures var dir := EnvsDirectory(app);
            var key := dir + name;
            var st := Store(map[key := value],
                            {UserDirectory(app.username), AppDirectory(app), dir},
                            map[dir := [key]], {}, "");
            EnvironmentVariablesAsWritten(app, st) == Panicked
            && EnvironmentVariables(app, st) == Ok(map[SettingName(key, dir) := value])
  {
    var dir := EnvsDirectory(app);
    var key := dir + name;
    var st := Store(map[key := value], {UserDirectory(app.username), AppDirectory(app), dir},
                    map[dir := [key]], {}, "");
    var r := EnvironmentVariables(app, st);
    assert LastWithName([key], dir, 0);
    assert r.value.Keys == {SettingName(key, dir)} by {
      assert (set i | 0 <= i < |[key]| :: SettingName([key][i], dir)) == {SettingName(key, dir)};
    }
  }

  // -------------------------------------------------------------- metadata

  /** The directories `RegisterMetadata` creates when missing: the user
      directory, then the app directory with `envs` and `revisions` below it.
      Failures are ignored; values are untouched. */
  function EnsureDirectories(app: Application, st: Store): (r: Store)
    ensures r.values == st.values && r.failing == st.failing && r.listings == st.listings
    ensures st.dirs <= r.dirs
    ensures r.dirs - st.dirs <= {UserDirectory(app.username), AppDirectory(app),
                                 AppDirectory(app) + EnvsChild, AppDirectory(app) + RevisionsChild}
    ensures HasKey(st, AppDirectory(app)) ==> r.dirs - st.dirs <= {UserDirectory(app.username)}
    ensures UserDirectory(app.username) !in st.failing ==> HasKey(r, UserDirectory(app.username))
    ensures AppDirectory(app) !in st.failing ==> HasKey(r, AppDirectory(app))
  {
    var userDir := UserDirectory(app.username);
    var appDir := AppDirectory(app);
    var st1 := if !HasKey(st, userDir) then Mkdir(st, userDir).0 else st;
    assert HasKey(st1, appDir) == HasKey(st, appDir) by {
      assert |appDir| > |userDir|;
    }
    if !HasKey(st1, appDir) then
      Mkdir(Mkdir(Mkdir(st1, appDir).0, appDir + EnvsChild).0, appDir + RevisionsChild).0
    else st1
  }

  /** `RegisterMetadata` at Unix time `now`: the directories are made sure
      of, then the revision is stamped with the time, the only step whose
      failure is reported. */
  function RegisterMetadata(app: Application, st: Store, now: int): (r: (Store, Outcome))
    ensures r.1.Pass? <==> RevisionKey(app) !in st.failing
    ensures r.1.Pass? ==> Get(r.0, RevisionKey(app)) == Ok(Itoa(now))
    ensures r.1.Fail? ==> r.1.msg == Wrap(RevisionError, Set(EnsureDirectories(app, st), RevisionKey(app), Itoa(now)).1.msg)
    ensures r.0 == Set(EnsureDirectories(app, st), RevisionKey(app), Itoa(now)).0
  {
    var (st3, out) := Set(EnsureDirectories(app, st), RevisionKey(app), Itoa(now));
    if out.Fail? then (st3, Fail(Wrap(RevisionError, out.msg))) else (st3, Pass)
  }

  /** `RegisterMetadata` writes no value but the revision's, and creates no
      directory but those `EnsureDirectories` may. */
  lemma RegisterMetadataFrame(app: Application, st: Store, now: int)
    ensures var r := RegisterMetadata(app, st, now).0;
            r.values.Keys <= st.values.Keys + {RevisionKey(app)}
            && (forall k | k in st.values && k != RevisionKey(app) :: k in r.values && r.values[k] == st.values[k])
            && r.dirs == EnsureDirectories(app, st).dirs
  {
    var key, stamp := RevisionKey(app), Itoa(now);
    var st2 := EnsureDirectories(app, st);
    assert RegisterMetadata(app, st, now).0 == Set(st2, key, stamp).0;
  }
}

/** A deployment of one revision (`receiver/model/deployment.go`). */
module Deployment {
  import opened Wrappers
  import opened GoStrings
  import opened GoStrconv
  import opened GoPath
  import Application

  const RefPrefix: string := "refs/heads/"
  const ComposeFilePrefix: string := "docker-compose-"
  const ComposeFileSuffix: string := ".yml"
  const ArgumentCountError: string := "5 arguments (repository, revision, username, fingerprint, refname) must be passed. got: "

  datatype Deployment = Deployment(
    branch: string,
    composeFilePath: string,
    projectName: string,
    revision: string,
    timestamp: string,
    app: Application.Application)

  /** The project: the repository and the first eight characters of the
      revision. */
  function ProjectName(app: Application.Application, revision: string): string
    requires |revision| >= 8
  {
    app.repository + "-" + revision[..8]
  }

  function ComposeFileName(timestamp: string): string
  {
    ComposeFilePrefix + timestamp + ComposeFileSuffix
  }

  /** `NewDeployment`: the project is the repository plus the short
      revision; the compose file lives at
      `repositoryDir/username/project/docker-compose-<timestamp>.yml`. */
  function NewDeployment(app: Application.Application, branch: string, revision: string, timestamp: string,
                         repositoryDir: string): (d: Deployment)
    requires |revision| >= 8
    ensures d.projectName == ProjectName(app, revision)
    ensures d.branch == branch && d.revision == revision && d.timestamp == timestamp && d.app == app
  {
    var projectName := ProjectName(app, revision);
    Deployment(branch, ComposeFilePath(repositoryDir, app.username, projectName, timestamp),
               projectName, revision, timestamp, app)
  }

  /** `filepath.Join(repositoryDir, username, projectName, <file name>)`. */
  function ComposeFilePath(repositoryDir: string, username: string, projectName: string, timestamp: string): string
  {
    JoinPath([repositoryDir, username, projectName] + [ComposeFileName(timestamp)])
  }

  /** Whatever the directories, the compose file's name is the last element
      of its path. */
  lemma ComposeFileIsLast(app: Application.Application, branch: string, revision: string, timestamp: string,
                          repositoryDir: string)
    requires |revision| >= 8 && '/' !in timestamp
    ensures LastElement(NewDeployment(app, branch, revision, timestamp, repositoryDir).composeFilePath)
         == ComposeFileName(timestamp)
  {
    FileNamePlain(timestamp);
    JoinPathLast([repositoryDir, app.username, ProjectName(app, revision)], ComposeFileName(timestamp));
  }

  lemma FileNamePlain(timestamp: string)
    requires '/' !in timestamp
    ensures PlainElement(ComposeFileName(timestamp))
  {
    var f := ComposeFileName(timestamp);
    assert f == ComposeFilePrefix + timestamp + ComposeFileSuffix;
    assert f[0] == 'd';
    assert forall i | 0 <= i < |f| :: f[i] != '/' by {
      forall i | 0 <= i < |f|
        ensures f[i] != '/'
      {
        if 15 <= i < 15 + |timestamp| {
          assert f[i] == timestamp[i - 15];
        }
      }
    }
  }

  /** `DeploymentFromArgs`: at least five arguments; the branch is the
      refname with a leading `refs/heads/` removed. */
  function FromArgs(app: Application.Application, args: seq<string>, timestamp: string, repositoryDir: string)
    : (r: Result<Deployment>)
    requires |args| >= 5 ==> |args[1]| >= 8
    ensures r.Err? <==> |args| < 5
    ensures r.Err? ==> r.msg == ArgumentCountError
                                 + Itoa(|args|)
    ensures r.Ok? ==> r.value.revision == args[1] && r.value.timestamp == timestamp && r.value.app == app
    ensures r.Ok? && HasPrefix(args[4], RefPrefix) ==> args[4] == RefPrefix + r.value.branch
    ensures r.Ok? && !HasPrefix(args[4], RefPrefix) ==> r.value.branch == args[4]
    ensures r.Ok? ==> r.value == NewDeployment(app, r.value.branch, args[1], timestamp, repositoryDir)
  {
    if |args| < 5 then
      Err(ArgumentCountError + Itoa(|args|))
    else
      Ok(NewDeployment(app, TrimPrefix(args[4], RefPrefix), args[1], timestamp, repositoryDir))
  }

  /** Deployments of the same revision at different times use different
      compose files. */
  lemma ComposeFilePathDistinct(app: Application.Application, branch: string, revision: string,
                                t1: string, t2: string, repositoryDir: string)
    requires |revision| >= 8 && '/' !in t1 && '/' !in t2 && t1 != t2
    ensures NewDeployment(app, branch, revision, t1, repositoryDir).composeFilePath
         != NewDeployment(app, branch, revision, t2, repositoryDir).composeFilePath
  {
    ComposeFileIsLast(app, branch, revision, t1, repositoryDir);
    ComposeFileIsLast(app, branch, revision, t2, repositoryDir);
    assert ComposeFileName(t1) != ComposeFileName(t2) by {
      assert ComposeFileName(t1)[15..15 + |t1|] == t1;
      if |t1| == |t2| {
        assert ComposeFileName(t2)[15..15 + |t2|] == t2;
      }
    }
  }

  /** Under an absolute repository directory of plain elements, with plain
      user and project names, the compose file's path is the rooted join of
      the directory's elements, the user, the project and the file name. */
  lemma ComposeFilePathLayout(dirs: seq<string>, username: string, projectName: string, timestamp: string)
    requires |dirs| >= 1 && forall i | 0 <= i < |dirs| :: PlainElement(dirs[i])
    requires PlainElement(username) && PlainElement(projectName) && '/' !in timestamp
    ensures ComposeFilePath("/" + Join(dirs, '/'), username, projectName, timestamp)
         == "/" + Join(dirs + [username, projectName, ComposeFileName(timestamp)], '/')
  {
    var f := ComposeFileName(timestamp);
    FileNamePlain(timestamp);
    RegroupFour("/" + Join(dirs, '/'), username, projectName, f);
    JoinPathRootedThree(dirs, username, projectName, f);
  }

  lemma RegroupFour(a: string, b: string, c: string, e: string)
    ensures [a, b, c] + [e] == [a] + [b, c, e]
  {
    var l, r := [a, b, c] + [e], [a] + [b, c, e];
    assert |l| == |r| == 4;
    assert l[0] == r[0] && l[1] == r[1] && l[2] == r[2] && l[3] == r[3];
  }
}
