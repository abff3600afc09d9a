/** The stage sequence of `deploy` in `receiver/deploy.go`: a fixed list of
    twenty steps, eighteen of which may fail (updating the images and
    printing the URLs cannot), run in order until the first failure, whose
    error is returned as it is. What the steps do (unpacking, the
    Docker and AWS calls, the router registration) is left to an oracle
    giving each step's outcome; the model fixes their order and the values
    they are handed. */
module DeployStages {
  import opened Wrappers

  // ------------------------------------------------------------ the stages

  /** The steps of `deploy`, in source order. The names are those of the
      calls; a stage carries the values the source passes to it that the
      model follows. */
  datatype Stage =
    | UnpackReceivedFiles
    | Chdir
    | GetSubmodules
    | StatComposeFile
    | NewCompose
    | PrepareComposeFileStage
    | Build
    | Push
    | UpdateImages
    | TransformToTaskDefinition(serviceName: string)
    | RegisterTaskDefinition
    | CreateLogGroup(logGroupName: string)
    | CreateService(serviceName: string)
    | WaitUntilServicesStable
    | GetWebContainer
    | GetRunningInstance
    | GetInstance
    | RegisterInformation(serviceAddress: string)
    | PrintDeployedUrls(lines: seq<string>)
    | RemoveUnpackedFiles

  /** Rewriting the images and printing the URLs return no error. */
  predicate Fallible(s: Stage)
  {
    !(s.UpdateImages? || s.PrintDeployedUrls?)
  }

  /** Stage `s` stops the run: it can fail and its oracle says it does. */
  predicate Stops(s: Stage, outcome: Stage -> Outcome)
  {
    Fallible(s) && outcome(s).Fail?
  }

  /** The stages that ran, in order, and what `deploy` returned. */
  datatype Run = Run(ran: seq<Stage>, result: Outcome)

  /** The sequential machine: run each stage in turn; the first that fails
      ends the run and its error is the result. */
  function Execute(stages: seq<Stage>, outcome: Stage -> Outcome): (r: Run)
    ensures |r.ran| <= |stages| && r.ran == stages[..|r.ran|]
    ensures r.result.Pass? <==> forall i | 0 <= i < |stages| :: !Stops(stages[i], outcome)
    ensures r.result.Pass? ==> |r.ran| == |stages|
    ensures r.result.Fail? ==>
      |r.ran| > 0 && Stops(stages[|r.ran| - 1], outcome) && r.result == outcome(stages[|r.ran| - 1])
    ensures forall i | 0 <= i < |r.ran| - 1 :: !Stops(stages[i], outcome)
    decreases |stages|
  {
    if stages == [] then Run([], Pass)
    else if Stops(stages[0], outcome) then Run([stages[0]], outcome(stages[0]))
    else
      var rest := Execute(stages[1..], outcome);
      TakeCons(stages, |rest.ran|);
      Run([stages[0]] + rest.ran, rest.result)
  }

  /** Taking `k + 1` elements is taking the head and then `k` of the tail. */
  lemma TakeCons<T>(s: seq<T>, k: nat)
    requires k < |s|
    ensures [s[0]] + s[1..][..k] == s[..k + 1]
    ensures forall i | 1 <= i < |s| :: s[i] == s[1..][i - 1]
  {
    assert forall i | 0 <= i <= k :: ([s[0]] + s[1..][..k])[i] == s[..k + 1][i];
  }

  // ------------------------------------------------------------ deploy

  const StageCount: nat := 20

  /** Positions of the stages the properties below speak about. */
  const CreateServiceAt: nat := 12
  const StableAt: nat := 13
  const RegisterAt: nat := 17
  const PrintAt: nat := 18
  const RemoveAt: nat := 19

  /** The stages of `deploy` in source order, given the service name, the
      service address and the lines printed for the deployed URLs. */
  function Pipeline(serviceName: string, address: string, lines: seq<string>): (r: seq<Stage>)
    ensures |r| == StageCount
  {
    [ UnpackReceivedFiles,
      Chdir,
      GetSubmodules,
      StatComposeFile,
      NewCompose,
      PrepareComposeFileStage,
      Build,
      Push,
      UpdateImages,
      TransformToTaskDefinition(serviceName),
      RegisterTaskDefinition,
      CreateLogGroup(serviceName),
      CreateService(serviceName),
      WaitUntilServicesStable,
      GetWebContainer,
      GetRunningInstance,
      GetInstance,
      RegisterInformation(address),
      PrintDeployedUrls(lines),
      RemoveUnpackedFiles ]
  }

  /** The run reaches stage `k` exactly when every stage before it
      succeeded. */
  lemma Reaches(stages: seq<Stage>, outcome: Stage -> Outcome, k: nat)
    requires k < |stages|
    ensures k < |Execute(stages, outcome).ran| <==> forall i | 0 <= i < k :: !Stops(stages[i], outcome)
  {
    var run := Execute(stages, outcome);
    if k < |run.ran| {
      assert forall i | 0 <= i < k :: run.ran[i] == stages[i];
    }
    if forall i | 0 <= i < k :: !Stops(stages[i], outcome) {
      if run.result.Fail? {
        assert Stops(stages[|run.ran| - 1], outcome);
      }
    }
  }

  /** Where the stages the properties below speak about stand. */
  lemma PipelineOrder(serviceName: string, address: string, lines: seq<string>)
    ensures var p := Pipeline(serviceName, address, lines);
      p[CreateServiceAt - 3] == TransformToTaskDefinition(serviceName)
      && p[CreateServiceAt - 1] == CreateLogGroup(serviceName)
      && p[CreateServiceAt] == CreateService(serviceName)
      && p[StableAt..RegisterAt] == [WaitUntilServicesStable, GetWebContainer, GetRunningInstance, GetInstance]
      && p[RegisterAt] == RegisterInformation(address) && p[PrintAt] == PrintDeployedUrls(lines)
      && p[RemoveAt] == RemoveUnpackedFiles
  {
  }

  /** Routing is registered only once the service is stable and its web
      container, running instance and instance were found, each without
      error, and it is handed the address given. */
  lemma RegistrationAfterStable(serviceName: string, address: string, lines: seq<string>, outcome: Stage -> Outcome)
    requires RegisterAt < |Execute(Pipeline(serviceName, address, lines), outcome).ran|
    ensures var ran := Execute(Pipeline(serviceName, address, lines), outcome).ran;
      ran[RegisterAt] == RegisterInformation(address)
      && ran[StableAt..RegisterAt] == [WaitUntilServicesStable, GetWebContainer, GetRunningInstance, GetInstance]
      && forall i | StableAt <= i < RegisterAt :: !Stops(ran[i], outcome)
  {
    PipelineOrder(serviceName, address, lines);
  }

  /** The unpacked files are removed only after the routing registration
      succeeded. */
  lemma RemovalAfterRegistration(serviceName: string, address: string, lines: seq<string>, outcome: Stage -> Outcome)
    requires RemoveAt < |Execute(Pipeline(serviceName, address, lines), outcome).ran|
    ensures var ran := Execute(Pipeline(serviceName, address, lines), outcome).ran;
      ran[RemoveAt] == RemoveUnpackedFiles && ran[RegisterAt] == RegisterInformation(address)
      && !Stops(ran[RegisterAt], outcome)
  {
    PipelineOrder(serviceName, address, lines);
  }

  /** The task definition, the log group and the ECS service are all named
      with the one service name. */
  lemma OneServiceName(serviceName: string, address: string, lines: seq<string>, outcome: Stage -> Outcome)
    requires CreateServiceAt < |Execute(Pipeline(serviceName, address, lines), outcome).ran|
    ensures var ran := Execute(Pipeline(serviceName, address, lines), outcome).ran;
      ran[CreateServiceAt - 3] == TransformToTaskDefinition(serviceName)
      && ran[CreateServiceAt - 1] == CreateLogGroup(serviceName)
      && ran[CreateServiceAt] == CreateService(serviceName)
  {
    PipelineOrder(serviceName, address, lines);
  }

  /** Nothing is undone: a failure once the service was being created ends
      the run at the failing stage, whose error is returned; what ran is a
      prefix of the stages, so no stage removes the service again. */
  lemma NoCompensation(serviceName: string, address: string, lines: seq<string>, outcome: Stage -> Outcome)
    requires CreateServiceAt < |Execute(Pipeline(serviceName, address, lines), outcome).ran|
    requires Execute(Pipeline(serviceName, address, lines), outcome).result.Fail?
    ensures var p := Pipeline(serviceName, address, lines);
      var run := Execute(p, outcome);
      run.ran == p[..|run.ran|] && run.ran[CreateServiceAt] == CreateService(serviceName)
      && (outcome(CreateService(serviceName)).Pass? <==> CreateServiceAt + 1 < |run.ran|)
      && run.result == outcome(run.ran[|run.ran| - 1])
  {
    PipelineOrder(serviceName, address, lines);
    var p := Pipeline(serviceName, address, lines);
    var run := Execute(p, outcome);
    if CreateServiceAt + 1 < |run.ran| {
      assert !Stops(p[CreateServiceAt], outcome);
    }
  }

  /** The URL lines are printed only after the registration succeeded, and
      they are the lines given. */
  lemma PrintedAfterRegistration(serviceName: string, address: string, lines: seq<string>, outcome: Stage -> Outcome)
    requires PrintAt < |Execute(Pipeline(serviceName, address, lines), outcome).ran|
    ensures var ran := Execute(Pipeline(serviceName, address, lines), outcome).ran;
      ran[PrintAt] == PrintDeployedUrls(lines) && !Stops(ran[RegisterAt], outcome)
  {
    PipelineOrder(serviceName, address, lines);
  }
}

/** The parts of `receiver/deploy.go` that compute something: the
    compose-file preparation, the service address and the printed URLs, and
    `deploy` itself as the stage sequence fed with them. */
module Deploy {
  import opened Wrappers
  import opened GoStrings
  import opened GoStrconv
  import opened KeyValueText
  import opened ComposeProject
  import opened DeployStages

  // ------------------------------------------------------ prepareComposeFile

  /** `prepareComposeFile`: the build arguments and then the environment
      variables of the application are injected into the `web` service, its
      host port bindings are rewritten, and the result is saved. `args` and
      `envs` are what `BuildArgs` and `EnvironmentVariables` return; `save`
      is the outcome of `SaveAs` for the project it is given. The first error
      ends the preparation and is returned unwrapped; the returned project is
      the in-memory one at that point. */
  function PrepareComposeFile(args: Result<map<string, string>>, envs: Result<map<string, string>>,
                              p: Project, save: Project -> Outcome): (r: (Project, Outcome))
    ensures args.Err? ==> r == (p, Fail(args.msg))
    ensures args.Ok? && envs.Err? ==> r == (InjectBuildArgs(p, args.value), Fail(envs.msg))
    ensures r.1.Pass? <==> args.Ok? && envs.Ok? && save(r.0).Pass?
    ensures args.Ok? && envs.Ok? ==> r.1 == save(r.0)
    ensures args.Ok? && envs.Ok? ==> RewritePortBindings(r.0) == r.0
    ensures args.Ok? && envs.Ok? ==> |r.0| == |p| && forall j | 0 <= j < |p| :: r.0[j].name == p[j].name
  {
    if args.Err? then (p, Fail(args.msg))
    else
      var withArgs := InjectBuildArgs(p, args.value);
      if envs.Err? then (withArgs, Fail(envs.msg))
      else
        var withEnvs := InjectEnvironmentVariables(withArgs, envs.value);
        var rewritten := RewritePortBindings(withEnvs);
        RewritePortBindingsIdempotent(withEnvs);
        (rewritten, save(rewritten))
  }

  /** Editing one service's configuration does not move the `web` service. */
  lemma WebIndexOnlyAt(p: Project, q: Project, i: nat)
    requires OnlyAt(p, q, i)
    ensures WebIndex(q) == WebIndex(p)
  {
    assert forall j | 0 <= j < |p| :: q[j].name == p[j].name;
    var a, b := WebIndex(p), WebIndex(q);
    if a.Some? && b.Some? {
      assert !(a.value < b.value) && !(b.value < a.value);
    }
  }

  /** The rewrite of the ports does not move the `web` service. */
  lemma {:induction false} WebIndexRewritten(p: Project)
    ensures WebIndex(RewritePortBindings(p)) == WebIndex(p)
    decreases |p|
  {
    var r := RewritePortBindings(p);
    if p != [] && p[0].name != WebName {
      assert r[1..] == RewritePortBindings(p[1..]);
      WebIndexRewritten(p[1..]);
    }
  }

  /** What a successful preparation saves: the `web` service's build
      arguments hold every injected argument, and its environment reads back
      as the old `K=V` entries with the injected variables written over
      them. */
  lemma PreparedWeb(args: map<string, string>, envs: map<string, string>, p: Project, save: Project -> Outcome)
    requires WebIndex(p).Some?
    requires forall k | k in envs :: '=' !in k
    ensures var q := PrepareComposeFile(Ok(args), Ok(envs), p, save).0;
      var i := WebIndex(p).value;
      WebIndex(q) == WebIndex(p)
      && q[i].config.build.args.Some?
      && (forall k | k in args :: k in q[i].config.build.args.value && q[i].config.build.args.value[k] == args[k])
      && Assignments(q[i].config.environment, false) == Assignments(p[i].config.environment, false) + envs
  {
    var i := WebIndex(p).value;
    var withArgs := InjectBuildArgs(p, args);
    WebIndexOnlyAt(p, withArgs, i);
    var withEnvs := InjectEnvironmentVariables(withArgs, envs);
    WebIndexOnlyAt(withArgs, withEnvs, i);
    InjectEnvironmentReadBack(withArgs, envs);
    WebIndexRewritten(withEnvs);
  }

  // ------------------------------------------------------------ the inputs

  /** Everything `deploy` learns from outside: the outcome of each stage,
      the service name made from the current time, the address the web
      container was found at, the identifiers the router registration
      returns, and the configuration read by the URL printer. `publicIp` is
      `None` when the instance has no public IP address, and `hostPort` is
      `None` when the web container has no network binding or its first
      binding has no host port: the pointers the source dereferences are
      then nil or the index is out of range. */
  datatype Environment = Environment(
    outcome: Stage -> Outcome,
    serviceName: string,
    publicIp: Option<string>,
    hostPort: Option<int>,
    identifiers: seq<string>,
    repository: string,
    uriScheme: string,
    baseDomain: string)

  /** `fmt.Sprintf("%s:%d", publicIP, port)`. */
  function ServiceAddress(publicIp: string, port: int): string
  {
    publicIp + ":" + Itoa(port)
  }

  /** The address splits back into the public IP and the port, the port
      being the text after the last colon. */
  lemma ServiceAddressParses(publicIp: string, port: int)
    requires MinInt64 <= port <= MaxInt64
    ensures var a := ServiceAddress(publicIp, port);
      |a| > |publicIp| && a[..|publicIp|] == publicIp && a[|publicIp|] == ':'
      && ':' !in a[|publicIp| + 1..]
      && ParseInt64(a[|publicIp| + 1..]) == Parsed(port, true)
  {
    var a := ServiceAddress(publicIp, port);
    assert a[|publicIp| + 1..] == Itoa(port);
    ParseItoa(port);
    ItoaHasNoColon(port);
  }

  lemma ItoaHasNoColon(n: int)
    ensures ':' !in Itoa(n)
  {
    var digits := NatToDecimal(if n < 0 then -n else n);
    assert forall k | 0 <= k < |digits| :: IsDigit(digits[k]);
    if n < 0 {
      assert Itoa(n) == "-" + digits;
    }
  }

  /** The URL printed for one identifier. */
  function DeployedUrl(uriScheme: string, identifier: string, baseDomain: string): string
  {
    ToLower(uriScheme + "://" + identifier + "." + baseDomain)
  }

  /** `printDeployedURLs`: the title text handed to `PrintTitle`, naming
      the repository, then one indented URL per identifier, in the order
      given. */
  function DeployedUrlLines(repository: string, uriScheme: string, identifiers: seq<string>, baseDomain: string)
    : (r: seq<string>)
    ensures |r| == |identifiers| + 1
    ensures r[0] == repository + " was successfully deployed!"
    ensures forall i | 0 <= i < |identifiers| :: r[i + 1] == "  " + DeployedUrl(uriScheme, identifiers[i], baseDomain)
  {
    [repository + " was successfully deployed!"]
      + seq(|identifiers|, i requires 0 <= i < |identifiers| => "  " + DeployedUrl(uriScheme, identifiers[i], baseDomain))
  }

  lemma ToLowerFive(a: string, b: string, c: string, d: string, e: string)
    ensures ToLower(a + b + c + d + e) == ToLower(a) + ToLower(b) + ToLower(c) + ToLower(d) + ToLower(e)
  {
    ToLowerAppend(a + b + c + d, e);
    ToLowerAppend(a + b + c, d);
    ToLowerAppend(a + b, c);
    ToLowerAppend(a, b);
  }

  lemma SeparatorsLower()
    ensures ToLower("://") == "://" && ToLower(".") == "."
  {
    assert forall i | 0 <= i < 3 :: ToLower("://")[i] == "://"[i];
  }

  /** Each URL is the lower-cased scheme, identifier and base domain in
      their places, and lower-casing it again changes nothing. */
  lemma DeployedUrlShape(uriScheme: string, identifier: string, baseDomain: string)
    ensures DeployedUrl(uriScheme, identifier, baseDomain)
      == ToLower(uriScheme) + "://" + ToLower(identifier) + "." + ToLower(baseDomain)
    ensures ToLower(DeployedUrl(uriScheme, identifier, baseDomain)) == DeployedUrl(uriScheme, identifier, baseDomain)
  {
    ToLowerFive(uriScheme, "://", identifier, ".", baseDomain);
    SeparatorsLower();
    ToLowerIdempotent(uriScheme + "://" + identifier + "." + baseDomain);
  }

  /** Different identifiers in the same place give different URLs. */
  lemma UrlsDiffer(scheme: string, x: string, y: string, domain: string)
    requires x != y
    ensures scheme + "://" + x + "." + domain != scheme + "://" + y + "." + domain
  {
    var u, v := scheme + "://" + x + "." + domain, scheme + "://" + y + "." + domain;
    if |x| == |y| {
      assert u[|scheme| + 3..|scheme| + 3 + |x|] == x;
      assert v[|scheme| + 3..|scheme| + 3 + |y|] == y;
    }
  }

  /** Identifiers that differ other than in letter case give different
      URLs. */
  lemma DeployedUrlsDistinct(uriScheme: string, a: string, b: string, baseDomain: string)
    requires ToLower(a) != ToLower(b)
    ensures DeployedUrl(uriScheme, a, baseDomain) != DeployedUrl(uriScheme, b, baseDomain)
  {
    DeployedUrlShape(uriScheme, a, baseDomain);
    DeployedUrlShape(uriScheme, b, baseDomain);
    UrlsDiffer(ToLower(uriScheme), ToLower(a), ToLower(b), ToLower(baseDomain));
  }

  /** What `deploy` does: it returns, after running some stages, or it
      panics once the stages before the registration have all passed. */
  datatype Deployed = Finished(run: Run) | PanickedAfter(ran: seq<Stage>)

  /** The stages up to the instance lookup, which do not depend on the
      address. */
  function Front(serviceName: string): (r: seq<Stage>)
    ensures |r| == RegisterAt
    ensures forall address, lines :: r == Pipeline(serviceName, address, lines)[..RegisterAt]
  {
    Pipeline(serviceName, "", [])[..RegisterAt]
  }

  /** The address is found: both the public IP and the host port are
      there. */
  predicate AddressFound(env: Environment)
  {
    env.publicIp.Some? && env.hostPort.Some?
  }

  /** `deploy`: the stages in order, stopping at the first error, which is
      returned as it is. Once the instance is found, the public IP and the
      first binding's host port are dereferenced: if either is missing the
      run panics there. Otherwise the service address is the two joined and
      the printed lines are those of the returned identifiers. Nothing is
      undone on the way out. */
  function Deploy(env: Environment): (r: Deployed)
    ensures r.PanickedAfter? <==> !AddressFound(env) && forall i | 0 <= i < RegisterAt :: !Stops(Front(env.serviceName)[i], env.outcome)
    ensures r.PanickedAfter? ==> r.ran == Front(env.serviceName)
    ensures !AddressFound(env) && r.Finished? ==>
      var front := Front(env.serviceName);
      |r.run.ran| <= RegisterAt && r.run.ran == front[..|r.run.ran|]
      && r.run.result.Fail? && r.run.ran != [] && Stops(r.run.ran[|r.run.ran| - 1], env.outcome)
      && r.run.result == env.outcome(r.run.ran[|r.run.ran| - 1])
    ensures AddressFound(env) ==> r.Finished?
    ensures AddressFound(env) ==>
      var stages := Pipeline(env.serviceName, ServiceAddress(env.publicIp.value, env.hostPort.value),
                             DeployedUrlLines(env.repository, env.uriScheme, env.identifiers, env.baseDomain));
      r.Finished? && |r.run.ran| <= StageCount && r.run.ran == stages[..|r.run.ran|]
      && (r.run.result.Pass? <==> forall i | 0 <= i < StageCount :: !Stops(stages[i], env.outcome))
      && (r.run.result.Pass? ==> |r.run.ran| == StageCount)
      && (r.run.result.Fail? ==> r.run.ran != [] && Stops(r.run.ran[|r.run.ran| - 1], env.outcome)
                                 && r.run.result == env.outcome(r.run.ran[|r.run.ran| - 1]))
  {
    if AddressFound(env) then
      var address := ServiceAddress(env.publicIp.value, env.hostPort.value);
      var lines := DeployedUrlLines(env.repository, env.uriScheme, env.identifiers, env.baseDomain);
      Finished(Execute(Pipeline(env.serviceName, address, lines), env.outcome))
    else
      var early := Execute(Front(env.serviceName), env.outcome);
      if early.result.Fail? then Finished(early) else PanickedAfter(early.ran)
  }

  /** `deploy` returns without error exactly when the address is found and
      no stage fails; a missing address never gets past the instance
      lookup. */
  lemma DeploySucceeds(env: Environment)
    ensures Deploy(env).Finished? && Deploy(env).run.result.Pass? <==>
      AddressFound(env)
      && forall i | 0 <= i < StageCount ::
           !Stops(Pipeline(env.serviceName, ServiceAddress(env.publicIp.value, env.hostPort.value),
                           DeployedUrlLines(env.repository, env.uriScheme, env.identifiers, env.baseDomain))[i], env.outcome)
    ensures !AddressFound(env) ==> (Deploy(env).Finished? ==> |Deploy(env).run.ran| <= RegisterAt)
  {
    var r := Deploy(env);
    if !AddressFound(env) && r.Finished? {
      assert r.run.result.Fail?;
    }
  }

  /** What a run of `deploy` that got to the printing printed: the title,
      then one lower-cased URL per returned identifier, in their order. */
  lemma PrintedUrls(env: Environment)
    requires Deploy(env).Finished? && |Deploy(env).run.ran| > PrintAt
    ensures AddressFound(env)
    ensures Deploy(env).run.ran[PrintAt].PrintDeployedUrls?
    ensures var printed := Deploy(env).run.ran[PrintAt].lines;
      |printed| == |env.identifiers| + 1
      && forall i | 0 <= i < |env.identifiers| ::
           printed[i + 1] == "  " + DeployedUrl(env.uriScheme, env.identifiers[i], env.baseDomain)
  {
    var address := ServiceAddress(env.publicIp.value, env.hostPort.value);
    var lines := DeployedUrlLines(env.repository, env.uriScheme, env.identifiers, env.baseDomain);
    PrintedAfterRegistration(env.serviceName, address, lines, env.outcome);
  }

  /** The routing registration runs only when the address was found, is
      handed that address, and the address reads back as the public IP and
      the host port. */
  lemma RegisteredAddress(env: Environment)
    requires Deploy(env).Finished? && |Deploy(env).run.ran| > RegisterAt
    requires env.hostPort.Some? ==> MinInt64 <= env.hostPort.value <= MaxInt64
    ensures AddressFound(env)
    ensures Deploy(env).run.ran[RegisterAt].RegisterInformation?
    ensures var a := Deploy(env).run.ran[RegisterAt].serviceAddress;
      var ip := env.publicIp.value;
      |a| > |ip| && a[..|ip|] == ip && a[|ip|] == ':'
      && ParseInt64(a[|ip| + 1..]) == Parsed(env.hostPort.value, true)
  {
    var address := ServiceAddress(env.publicIp.value, env.hostPort.value);
    var lines := DeployedUrlLines(env.repository, env.uriScheme, env.identifiers, env.baseDomain);
    RegistrationAfterStable(env.serviceName, address, lines, env.outcome);
    ServiceAddressParses(env.publicIp.value, env.hostPort.value);
  }
}
