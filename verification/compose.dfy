/** The libcompose project of `receiver/model/compose.go`: the edits made to
    the parsed services before the file is saved, and the order in which the
    images are built and pushed. The Docker daemon and the registry are
    oracles passed in as functions. */
module ComposeProject {
  import opened Wrappers
  import opened GoStrings
  import opened StringOrder
  import opened PortBinding
  import opened KeyValueText
  import opened ImageRef

  const WebName: string := "web"
  const BuildFailed: string := "Failed to build image. service: "

  /** `config.ServiceConfig.Build`; a nil `Args` map is `None`. */
  datatype BuildConfig = BuildConfig(context: string, dockerfile: string, args: Option<map<string, string>>)

  /** The parts of a libcompose service the receiver reads or edits. */
  datatype ServiceConfig = ServiceConfig(image: string, build: BuildConfig, environment: seq<string>, ports: seq<string>)

  datatype NamedService = NamedService(name: string, config: ServiceConfig)

  /** The project's services in the order `ServiceConfigs.Keys()` lists them. */
  type Project = seq<NamedService>

  /** `webService`: the position of the service named `web`, if any. */
  function WebIndex(p: Project): (r: Option<nat>)
    ensures r.None? <==> forall i | 0 <= i < |p| :: p[i].name != WebName
    ensures r.Some? ==>
      r.value < |p| && p[r.value].name == WebName && forall i | 0 <= i < r.value :: p[i].name != WebName
    decreases |p|
  {
    if p == [] then None
    else if p[0].name == WebName then Some(0)
    else
      match WebIndex(p[1..])
      case None => None
      case Some(i) => Some(i + 1)
  }

  /** `q` is `p` with at most the configuration of service `i` changed. */
  predicate OnlyAt(p: Project, q: Project, i: nat)
  {
    |q| == |p| && i < |p| && q[i].name == p[i].name
    && forall j | 0 <= j < |p| && j != i :: q[j] == p[j]
  }

  // ------------------------------------------------------------ build args

  /** A nil map reads as empty. */
  function ArgsOrEmpty(args: Option<map<string, string>>): map<string, string>
  {
    match args
    case None => map[]
    case Some(m) => m
  }

  /** `after` is `before` with only its build arguments changed: they are
      present, hold every key of either map, take the injected values and
      keep the others. */
  predicate BuildArgsInjected(before: ServiceConfig, after: ServiceConfig, args: map<string, string>)
  {
    after == before.(build := before.build.(args := after.build.args))
    && after.build.args.Some?
    && var current, merged := ArgsOrEmpty(before.build.args), after.build.args.value;
       merged.Keys == current.Keys + args.Keys
       && (forall k | k in args :: merged[k] == args[k])
       && (forall k | k in current && k !in args :: merged[k] == current[k])
  }

  /** `InjectBuildArgs`: the `web` service's build arguments, created when
      nil, with `args` written over them. No `web` service, no change. */
  function InjectBuildArgs(p: Project, args: map<string, string>): (r: Project)
    ensures WebIndex(p).None? ==> r == p
    ensures WebIndex(p).Some? ==>
      OnlyAt(p, r, WebIndex(p).value)
      && BuildArgsInjected(p[WebIndex(p).value].config, r[WebIndex(p).value].config, args)
  {
    match WebIndex(p)
    case None => p
    case Some(i) =>
      var web := p[i].config;
      p[i := NamedService(WebName, web.(build := web.build.(args := Some(ArgsOrEmpty(web.build.args) + args))))]
  }

  /** A `web` service without build arguments (or without a build section
      at all) ends up with exactly the injected ones. */
  lemma ArgsCreated(p: Project, args: map<string, string>)
    requires WebIndex(p).Some? && p[WebIndex(p).value].config.build.args.None?
    ensures InjectBuildArgs(p, args)[WebIndex(p).value].config.build.args == Some(args)
  {
    var i := WebIndex(p).value;
    assert InjectBuildArgs(p, args)[i].config.build.args == Some(map[] + args);
    assert map[] + args == args;
  }

  // ------------------------------------------------------------ environment

  /** `InjectEnvironmentVariables`: the `web` environment read into a map
      (entries without `=` dropped), `envs` written over it, and the list
      rebuilt from the map, even when `envs` is empty. */
  function InjectEnvironmentVariables(p: Project, envs: map<string, string>): (r: Project)
    ensures WebIndex(p).None? ==> r == p
    ensures WebIndex(p).Some? ==>
      var i := WebIndex(p).value;
      OnlyAt(p, r, i)
      && r[i].config == p[i].config.(environment := r[i].config.environment)
      && forall j | 0 <= j < |r[i].config.environment| :: '=' in r[i].config.environment[j]
  {
    match WebIndex(p)
    case None => p
    case Some(i) =>
      var web := p[i].config;
      var m := Assignments(web.environment, false) + envs;
      EntriesHaveEquals(m);
      p[i := NamedService(WebName, web.(environment := Inject(web.environment, false, envs)))]
  }

  /** Reading the rebuilt environment back gives the `K=V` entries of the
      old one, last one winning, with `envs` written over them; each key
      appears once. */
  lemma InjectEnvironmentReadBack(p: Project, envs: map<string, string>)
    requires forall k | k in envs :: '=' !in k
    requires WebIndex(p).Some?
    ensures var i := WebIndex(p).value;
      var before, after := p[i].config.environment, InjectEnvironmentVariables(p, envs)[i].config.environment;
      Assignments(after, false) == Assignments(before, false) + envs
      && forall j, k | 0 <= j < k < |after| :: EntryKey(after[j]) != EntryKey(after[k])
  {
    var i := WebIndex(p).value;
    InjectReadBack(p[i].config.environment, false, envs, false);
  }

  /** The keys of the rebuilt environment are the injected ones and those
      of the old entries holding `=`: a bare `K` is lost. */
  lemma InjectEnvironmentKeys(p: Project, envs: map<string, string>)
    requires forall k | k in envs :: '=' !in k
    requires WebIndex(p).Some?
    ensures var i := WebIndex(p).value;
      var before, after := p[i].config.environment, InjectEnvironmentVariables(p, envs)[i].config.environment;
      KeysIn(after, false) == KeysIn(before, false) + envs.Keys
  {
    var i := WebIndex(p).value;
    InjectKeys(p[i].config.environment, false, envs, false);
  }

  // ------------------------------------------------------------ ports

  /** The port list of one service after the rewrite: left alone when
      empty, otherwise each port rewritten. */
  function RewriteServicePorts(ports: seq<string>): (r: seq<string>)
    ensures |r| == |ports|
    ensures forall k | 0 <= k < |r| :: !HasBinding(r[k])
    ensures forall k | 0 <= k < |r| :: !HasBinding(ports[k]) ==> r[k] == ports[k]
  {
    if |ports| == 0 then ports
    else
      seq(|ports|, k requires 0 <= k < |ports| => RewriteLeavesNoBinding(ports[k]); PortRewrite(ports[k]))
  }

  /** `RewritePortBindings`: every service keeps its name and everything
      but its ports, which are rewritten. */
  function RewritePortBindings(p: Project): (r: Project)
    ensures |r| == |p|
    ensures forall j | 0 <= j < |p| ::
      r[j].name == p[j].name && r[j].config == p[j].config.(ports := r[j].config.ports)
      && r[j].config.ports == RewriteServicePorts(p[j].config.ports)
  {
    seq(|p|, j requires 0 <= j < |p| =>
      NamedService(p[j].name, p[j].config.(ports := RewriteServicePorts(p[j].config.ports))))
  }

  /** Ports without a binding are fixed points of the rewrite. */
  lemma SettledPorts(ports: seq<string>)
    requires forall k | 0 <= k < |ports| :: !HasBinding(ports[k])
    ensures RewriteServicePorts(ports) == ports
  {
  }

  /** A second rewrite changes nothing. */
  lemma RewritePortBindingsIdempotent(p: Project)
    ensures RewritePortBindings(RewritePortBindings(p)) == RewritePortBindings(p)
  {
    var r := RewritePortBindings(p);
    forall j | 0 <= j < |r|
      ensures RewriteServicePorts(r[j].config.ports) == r[j].config.ports
    {
      SettledPorts(r[j].config.ports);
    }
  }

  // ------------------------------------------------------------ build

  /** The deployment fields `Build` names images after. */
  datatype Naming = Naming(registryDomain: string, username: string, appName: string, revision: string)

  datatype BuildArg = BuildArg(name: string, value: string)

  /** `docker.BuildImageOptions`, less the output stream and flags. */
  datatype BuildOptions = BuildOptions(buildArgs: seq<BuildArg>, contextDir: string, dockerfile: string, name: string)

  /** The options passed to the builder, in call order, and what `Build`
      returned. */
  datatype BuildRun = BuildRun(calls: seq<BuildOptions>, result: Result<seq<Image>>)

  /** A service is built only when it has a build context. */
  predicate IsBuilt(s: NamedService)
  {
    s.config.build.context != ""
  }

  /** One service's build arguments, in ascending key order. */
  function ArgsOf(s: NamedService): (r: seq<BuildArg>)
    ensures |r| == |ArgsOrEmpty(s.config.build.args)|
  {
    var m := ArgsOrEmpty(s.config.build.args);
    var keys := SortedSeq(m.Keys);
    seq(|keys|, k requires 0 <= k < |keys| => BuildArg(keys[k], m[keys[k]]))
  }

  /** The arguments passed for a service are exactly its `Args` entries. */
  lemma ArgsOfMembers(s: NamedService)
    ensures forall a :: a in ArgsOf(s) <==>
      a.name in ArgsOrEmpty(s.config.build.args) && a.value == ArgsOrEmpty(s.config.build.args)[a.name]
  {
    var m := ArgsOrEmpty(s.config.build.args);
    var keys := SortedSeq(m.Keys);
    var r := ArgsOf(s);
    forall a: BuildArg | a.name in m && a.value == m[a.name]
      ensures a in r
    {
      var k :| 0 <= k < |keys| && keys[k] == a.name;
      assert r[k] == a;
    }
  }

  /** The image a service is built as: named after user, app and service
      in the registry when it declares none, otherwise the parsed declared
      image. */
  function ImageFor(n: Naming, s: NamedService): (r: Result<Image>)
    ensures r.Err? <==> multiset(s.config.image)[':'] >= 2
    ensures s.config.image == "" ==>
      r.Ok? && r.value.registry == n.registryDomain && r.value.name == n.username + "-" + n.appName + "-" + s.name && r.value.tag == n.revision
  {
    if s.config.image == "" then Ok(NewImage(n.registryDomain, n.username + "-" + n.appName + "-" + s.name, n.revision))
    else FromString(s.config.image)
  }

  /** What `Build` does with each service it builds: the image it names
      and the build arguments it appends, in the order appended. */
  datatype Recipe = Recipe(imageOf: NamedService -> Result<Image>, argsOf: NamedService -> seq<BuildArg>)

  /** `Build`'s own recipe. */
  function RecipeFor(n: Naming): Recipe
  {
    Recipe(s => ImageFor(n, s), ArgsOf)
  }

  /** The services `Build` builds, in order. */
  function Built(p: Project): (r: Project)
    ensures forall s :: s in r <==> s in p && IsBuilt(s)
    decreases |p|
  {
    if p == [] then []
    else (if IsBuilt(p[0]) then [p[0]] else []) + Built(p[1..])
  }

  /** The arguments of the first `k` built services, concatenated. */
  function Accumulated(rc: Recipe, built: Project, k: nat): seq<BuildArg>
    requires k <= |built|
    decreases k
  {
    if k == 0 then [] else rc.argsOf(built[0]) + Accumulated(rc, built[1..], k - 1)
  }

  /** The loop of `Build` from some service on, `acc` holding the arguments
      gathered so far. */
  function BuildFrom(p: Project, rc: Recipe, builder: BuildOptions -> Outcome, acc: seq<BuildArg>): BuildRun
    decreases |p|
  {
    if p == [] then BuildRun([], Ok([]))
    else
      var s := p[0];
      if !IsBuilt(s) then BuildFrom(p[1..], rc, builder, acc)
      else
        var args := acc + rc.argsOf(s);
        match rc.imageOf(s)
        case Err(e) => BuildRun([], Err(e))
        case Ok(image) =>
          var opts := BuildOptions(args, s.config.build.context, s.config.build.dockerfile, ToString(image));
          match builder(opts)
          case Fail(e) => BuildRun([opts], Err(Wrap(BuildFailed + s.name, e)))
          case Pass =>
            var rest := BuildFrom(p[1..], rc, builder, args);
            BuildRun([opts] + rest.calls, if rest.result.Err? then rest.result else Ok([image] + rest.result.value))
  }

  /** `Build`: the arguments gathered start empty and are never reset. */
  function Build(p: Project, n: Naming, builder: BuildOptions -> Outcome): BuildRun
  {
    BuildFrom(p, RecipeFor(n), builder, [])
  }

  /** The options of the builder call for the `k`-th built service. */
  function PlannedCall(rc: Recipe, built: Project, k: nat, acc: seq<BuildArg>, image: Image): BuildOptions
    requires k < |built|
  {
    BuildOptions(acc + Accumulated(rc, built, k + 1), built[k].config.build.context, built[k].config.build.dockerfile, ToString(image))
  }

  /** The `k`-th call builds the `k`-th built service, with the arguments of
      it and of all built services before it. */
  predicate CallsPlanned(built: Project, rc: Recipe, acc: seq<BuildArg>, calls: seq<BuildOptions>)
  {
    |calls| <= |built|
    && forall k | 0 <= k < |calls| ::
         rc.imageOf(built[k]).Ok? && calls[k] == PlannedCall(rc, built, k, acc, rc.imageOf(built[k]).value)
  }

  /** One call per built service, all successful, and their images in
      order. */
  predicate Succeeded(built: Project, rc: Recipe, builder: BuildOptions -> Outcome, calls: seq<BuildOptions>, images: seq<Image>)
  {
    |calls| == |built| && |images| == |built|
    && forall k | 0 <= k < |built| :: builder(calls[k]).Pass? && rc.imageOf(built[k]) == Ok(images[k])
  }

  /** Every call but the last succeeded, and either the next built
      service's image did not parse (no call made for it), or the last call
      failed and is reported under its service's name. */
  predicate FailedWith(built: Project, rc: Recipe, builder: BuildOptions -> Outcome, calls: seq<BuildOptions>, msg: string)
  {
    (forall k | 0 <= k < |calls| - 1 :: builder(calls[k]).Pass?)
    && ((|calls| < |built| && rc.imageOf(built[|calls|]) == Err(msg)
         && (0 < |calls| ==> builder(calls[|calls| - 1]).Pass?))
        || (0 < |calls| <= |built| && builder(calls[|calls| - 1]).Fail?
            && msg == Wrap(BuildFailed + built[|calls| - 1].name, builder(calls[|calls| - 1]).msg)))
  }

  predicate Explains(built: Project, rc: Recipe, builder: BuildOptions -> Outcome, acc: seq<BuildArg>, r: BuildRun)
  {
    CallsPlanned(built, rc, acc, r.calls)
    && (r.result.Ok? ==> Succeeded(built, rc, builder, r.calls, r.result.value))
    && (r.result.Err? ==> FailedWith(built, rc, builder, r.calls, r.result.msg))
  }

  /** The arguments of the built services after the first one, gathered
      after the first one's, are the arguments of all of them. */
  lemma AccumulatedShift(rc: Recipe, s: NamedService, rest: Project, acc: seq<BuildArg>, k: nat)
    requires k <= |rest|
    ensures (acc + rc.argsOf(s)) + Accumulated(rc, rest, k) == acc + Accumulated(rc, [s] + rest, k + 1)
  {
    ConsParts(s, rest);
    ConcatAssoc(acc, rc.argsOf(s), Accumulated(rc, rest, k));
  }

  /** The planned call for a later built service, seen from the rest of
      the list with the first service's arguments gathered. */
  lemma PlannedShift(rc: Recipe, s: NamedService, rest: Project, acc: seq<BuildArg>, k: nat, image: Image)
    requires k < |rest|
    ensures PlannedCall(rc, rest, k, acc + rc.argsOf(s), image) == PlannedCall(rc, [s] + rest, k + 1, acc, image)
  {
    AccumulatedShift(rc, s, rest, acc, k + 1);
    assert ([s] + rest)[k + 1] == rest[k];
  }

  lemma ShiftPlanned(s: NamedService, rest: Project, rc: Recipe, acc: seq<BuildArg>, tail: seq<BuildOptions>)
    requires rc.imageOf(s).Ok?
    requires CallsPlanned(rest, rc, acc + rc.argsOf(s), tail)
    ensures CallsPlanned([s] + rest, rc, acc, [PlannedCall(rc, [s] + rest, 0, acc, rc.imageOf(s).value)] + tail)
  {
    var built := [s] + rest;
    var calls := [PlannedCall(rc, built, 0, acc, rc.imageOf(s).value)] + tail;
    forall k | 1 <= k < |calls|
      ensures rc.imageOf(built[k]).Ok? && calls[k] == PlannedCall(rc, built, k, acc, rc.imageOf(built[k]).value)
    {
      assert built[k] == rest[k - 1] && calls[k] == tail[k - 1];
      PlannedShift(rc, s, rest, acc, k - 1, rc.imageOf(rest[k - 1]).value);
    }
  }

  lemma ShiftSucceeded(s: NamedService, rest: Project, rc: Recipe, builder: BuildOptions -> Outcome,
                       opts: BuildOptions, tail: seq<BuildOptions>, images: seq<Image>)
    requires rc.imageOf(s).Ok? && builder(opts).Pass?
    requires Succeeded(rest, rc, builder, tail, images)
    ensures Succeeded([s] + rest, rc, builder, [opts] + tail, [rc.imageOf(s).value] + images)
  {
    var built, calls, all := [s] + rest, [opts] + tail, [rc.imageOf(s).value] + images;
    assert forall k | 1 <= k < |built| :: built[k] == rest[k - 1] && calls[k] == tail[k - 1] && all[k] == images[k - 1];
  }

  lemma ShiftFailed(s: NamedService, rest: Project, rc: Recipe, builder: BuildOptions -> Outcome,
                    opts: BuildOptions, tail: seq<BuildOptions>, msg: string)
    requires builder(opts).Pass?
    requires FailedWith(rest, rc, builder, tail, msg)
    ensures FailedWith([s] + rest, rc, builder, [opts] + tail, msg)
  {
    var built, calls := [s] + rest, [opts] + tail;
    assert forall k | 1 <= k < |calls| :: calls[k] == tail[k - 1];
    if |calls| < |built| {
      assert built[|calls|] == rest[|tail|];
    }
    if 0 < |tail| {
      assert built[|calls| - 1] == rest[|tail| - 1];
    }
  }

  /** The first service's own step of the loop. */
  lemma FirstExplained(p: Project, rc: Recipe, builder: BuildOptions -> Outcome, acc: seq<BuildArg>)
    requires p != [] && IsBuilt(p[0])
    requires rc.imageOf(p[0]).Err? || builder(PlannedCall(rc, Built(p), 0, acc, rc.imageOf(p[0]).value)).Fail?
    ensures Explains(Built(p), rc, builder, acc, BuildFrom(p, rc, builder, acc))
  {
    var s := p[0];
    var built := Built(p);
    assert built == [s] + Built(p[1..]) && built[0] == s;
    if rc.imageOf(s).Ok? {
      var image := rc.imageOf(s).value;
      AccumulatedShift(rc, s, Built(p[1..]), acc, 0);
      assert (acc + rc.argsOf(s)) + [] == acc + rc.argsOf(s);
      var opts := PlannedCall(rc, built, 0, acc, image);
      assert opts == BuildOptions(acc + rc.argsOf(s), s.config.build.context, s.config.build.dockerfile, ToString(image));
      assert BuildFrom(p, rc, builder, acc) == BuildRun([opts], Err(Wrap(BuildFailed + s.name, builder(opts).msg)));
    } else {
      assert BuildFrom(p, rc, builder, acc) == BuildRun([], Err(rc.imageOf(s).msg));
    }
  }

  /** The run of the loop is explained by the built services. */
  lemma {:induction false} BuildFromExplained(p: Project, rc: Recipe, builder: BuildOptions -> Outcome, acc: seq<BuildArg>)
    ensures Explains(Built(p), rc, builder, acc, BuildFrom(p, rc, builder, acc))
    decreases |p|
  {
    if p != [] {
      var s := p[0];
      if !IsBuilt(s) {
        BuildFromExplained(p[1..], rc, builder, acc);
        assert Built(p) == Built(p[1..]);
      } else if rc.imageOf(s).Err? || builder(PlannedCall(rc, Built(p), 0, acc, rc.imageOf(s).value)).Fail? {
        FirstExplained(p, rc, builder, acc);
      } else {
        var rest := Built(p[1..]);
        assert Built(p) == [s] + rest;
        var image := rc.imageOf(s).value;
        var args := acc + rc.argsOf(s);
        AccumulatedShift(rc, s, rest, acc, 0);
        var opts := PlannedCall(rc, Built(p), 0, acc, image);
        assert opts == BuildOptions(args, s.config.build.context, s.config.build.dockerfile, ToString(image));
        var tail := BuildFrom(p[1..], rc, builder, args);
        assert BuildFrom(p, rc, builder, acc)
          == BuildRun([opts] + tail.calls, if tail.result.Err? then tail.result else Ok([image] + tail.result.value));
        BuildFromExplained(p[1..], rc, builder, args);
        ShiftPlanned(s, rest, rc, acc, tail.calls);
        if tail.result.Ok? {
          ShiftSucceeded(s, rest, rc, builder, opts, tail.calls, tail.result.value);
        } else {
          ShiftFailed(s, rest, rc, builder, opts, tail.calls, tail.result.msg);
        }
      }
    }
  }

  /** `Build` builds the services with a build context, in order, each
      with the arguments of every built service up to it; it stops at the
      first image that does not parse or the first failed build. */
  lemma BuildExplained(p: Project, n: Naming, builder: BuildOptions -> Outcome)
    ensures Explains(Built(p), RecipeFor(n), builder, [], Build(p, n, builder))
  {
    BuildFromExplained(p, RecipeFor(n), builder, []);
  }

  /** The arguments of every built service before the `k`-th are passed
      on to its build. */
  lemma {:induction false} EarlierArgsPassed(rc: Recipe, built: Project, k: nat, j: nat, a: BuildArg)
    requires j < k <= |built| && a in rc.argsOf(built[j])
    ensures a in Accumulated(rc, built, k)
    decreases k
  {
    var head, tail := rc.argsOf(built[0]), Accumulated(rc, built[1..], k - 1);
    assert Accumulated(rc, built, k) == head + tail;
    if j > 0 {
      assert built[1..][j - 1] == built[j];
      EarlierArgsPassed(rc, built[1..], k - 1, j - 1, a);
      assert a in tail;
    } else {
      InHead(head, tail, a);
    }
  }

  lemma InHead<T>(head: seq<T>, tail: seq<T>, a: T)
    requires a in head
    ensures a in head + tail
  {
  }

  /** Every argument a build receives comes from it or an earlier built
      service. */
  lemma {:induction false} PassedArgsEarlier(rc: Recipe, built: Project, k: nat, a: BuildArg)
    requires 0 < k <= |built| && a in Accumulated(rc, built, k)
    ensures exists j | 0 <= j < k :: a in rc.argsOf(built[j])
    decreases k
  {
    if a !in rc.argsOf(built[0]) {
      PassedArgsEarlier(rc, built[1..], k - 1, a);
      var j :| 0 <= j < k - 1 && a in rc.argsOf(built[1..][j]);
      assert built[1..][j] == built[j + 1];
    }
  }

  // ------------------------------------------------------------ push

  /** `docker.PushImageOptions`. */
  datatype PushOptions = PushOptions(registry: string, name: string, tag: string)

  /** A registry call `Push` makes. */
  datatype RegistryStep = CreateRepository(registry: string, repository: string) | PushImage(options: PushOptions)

  /** The registry as `Push` sees it: whether a repository exists, and the
      outcome of creating one or pushing to it. `repositoryExists` answers
      for the registry as it stood before `Push` and does not learn of the
      repositories `Push` creates, so two images with the same registry and
      name each get a creation call here, where the second check of the Go
      code would find the repository the first one made. */
  datatype Registry = Registry(
    repositoryExists: (string, string) -> bool,
    create: (string, string) -> Outcome,
    push: PushOptions -> Outcome)

  /** The registry calls made, in order, and what `Push` returned. */
  datatype PushRun = PushRun(steps: seq<RegistryStep>, result: Outcome)

  function PushOptionsOf(img: Image): PushOptions
  {
    PushOptions(img.registry, img.registry + "/" + img.name, img.tag)
  }

  function StepOutcome(reg: Registry, step: RegistryStep): Outcome
  {
    match step
    case CreateRepository(registry, repository) => reg.create(registry, repository)
    case PushImage(options) => reg.push(options)
  }

  /** The calls for one image: create its repository when missing, then
      push. */
  function ImagePlan(reg: Registry, img: Image): seq<RegistryStep>
  {
    (if reg.repositoryExists(img.registry, img.name) then [] else [CreateRepository(img.registry, img.name)])
    + [PushImage(PushOptionsOf(img))]
  }

  /** The calls for all images, in order, should none fail. */
  function Plan(reg: Registry, images: seq<Image>): seq<RegistryStep>
    decreases |images|
  {
    if images == [] then [] else ImagePlan(reg, images[0]) + Plan(reg, images[1..])
  }

  /** Every step succeeds. */
  predicate AllPass(reg: Registry, steps: seq<RegistryStep>)
  {
    forall k | 0 <= k < |steps| :: StepOutcome(reg, steps[k]).Pass?
  }

  /** A run follows a plan: its steps are a prefix of the plan; it
      succeeds exactly when every planned step does, and then made them
      all; and a failure is the outcome of its last step, all earlier ones
      having succeeded. */
  predicate Follows(reg: Registry, plan: seq<RegistryStep>, r: PushRun)
  {
    r.steps <= plan
    && (r.result.Pass? <==> AllPass(reg, plan))
    && (r.result.Pass? ==> r.steps == plan)
    && (r.result.Fail? ==>
          0 < |r.steps| && r.result == StepOutcome(reg, r.steps[|r.steps| - 1])
          && AllPass(reg, r.steps[..|r.steps| - 1]))
  }

  /** The calls `Push` makes for one image. */
  function PushOne(reg: Registry, img: Image): (r: PushRun)
    ensures Follows(reg, ImagePlan(reg, img), r)
  {
    var create := CreateRepository(img.registry, img.name);
    var pushStep := PushImage(PushOptionsOf(img));
    if reg.repositoryExists(img.registry, img.name) then
      assert ImagePlan(reg, img) == [pushStep];
      assert [pushStep][..0] == [] && AllPass(reg, []);
      assert AllPass(reg, [pushStep]) <==> StepOutcome(reg, pushStep).Pass? by {
        assert [pushStep][0] == pushStep;
      }
      PushRun([pushStep], reg.push(PushOptionsOf(img)))
    else
      assert ImagePlan(reg, img) == [create, pushStep];
      if reg.create(img.registry, img.name).Fail? then
        assert [create] <= [create, pushStep];
        assert StepOutcome(reg, [create, pushStep][0]).Fail?;
        assert [create][..0] == [];
        PushRun([create], reg.create(img.registry, img.name))
      else
        assert [create, pushStep][..1] == [create];
        assert StepOutcome(reg, create).Pass? && AllPass(reg, [create]);
        assert AllPass(reg, [create, pushStep]) <==> StepOutcome(reg, pushStep).Pass? by {
          assert [create, pushStep][1] == pushStep;
        }
        PushRun([create, pushStep], reg.push(PushOptionsOf(img)))
  }

  lemma AllPassConcat(reg: Registry, a: seq<RegistryStep>, b: seq<RegistryStep>)
    ensures AllPass(reg, a + b) <==> AllPass(reg, a) && AllPass(reg, b)
  {
    assert forall k | 0 <= k < |a| :: (a + b)[k] == a[k];
    assert forall k | 0 <= k < |b| :: (a + b)[|a| + k] == b[k];
  }

  lemma PrefixConcat(a: seq<RegistryStep>, b: seq<RegistryStep>, c: seq<RegistryStep>)
    requires b <= c
    ensures a + b <= a + c
  {
    assert (a + c)[..|a + b|] == a + c[..|b|];
  }

  /** A successful run followed by another follows the joined plans. */
  lemma FollowsThen(reg: Registry, a: seq<RegistryStep>, b: seq<RegistryStep>, ra: PushRun, rb: PushRun)
    requires Follows(reg, a, ra) && ra.result.Pass? && Follows(reg, b, rb)
    ensures Follows(reg, a + b, PushRun(ra.steps + rb.steps, rb.result))
  {
    assert ra.steps == a;
    AllPassConcat(reg, a, b);
    PrefixConcat(a, rb.steps, b);
    if rb.result.Fail? {
      var n := |rb.steps| - 1;
      var steps := a + rb.steps;
      assert steps[..|steps| - 1] == a + rb.steps[..n];
      assert steps[|steps| - 1] == rb.steps[n];
      AllPassConcat(reg, a, rb.steps[..n]);
    }
  }

  /** The loop of `Push` over the images. */
  function PushAll(reg: Registry, images: seq<Image>): (r: PushRun)
    ensures Follows(reg, Plan(reg, images), r)
    decreases |images|
  {
    if images == [] then PushRun([], Pass)
    else
      var first := PushOne(reg, images[0]);
      var plan := Plan(reg, images);
      assert plan == ImagePlan(reg, images[0]) + Plan(reg, images[1..]);
      if first.result.Fail? then
        assert first.steps <= plan;
        assert !AllPass(reg, plan) by {
          assert plan[|first.steps| - 1] == first.steps[|first.steps| - 1];
        }
        first
      else
        var rest := PushAll(reg, images[1..]);
        FollowsThen(reg, ImagePlan(reg, images[0]), Plan(reg, images[1..]), first, rest);
        PushRun(first.steps + rest.steps, rest.result)
  }

  /** `Push`: account and authorisation are fetched first and a failure of
      either is returned before any registry call. */
  function Push(account: Outcome, auth: Outcome, reg: Registry, images: seq<Image>): (r: PushRun)
    ensures account.Fail? ==> r == PushRun([], account)
    ensures account.Pass? && auth.Fail? ==> r == PushRun([], auth)
    ensures account.Pass? && auth.Pass? ==> r == PushAll(reg, images)
  {
    if account.Fail? then PushRun([], account)
    else if auth.Fail? then PushRun([], auth)
    else PushAll(reg, images)
  }

  /** Position `i` of the plan pushes `img`, right after creating its
      repository when that repository is missing. */
  predicate PushedAfterCreate(reg: Registry, plan: seq<RegistryStep>, img: Image, i: int)
  {
    0 <= i < |plan| && plan[i] == PushImage(PushOptionsOf(img))
    && (reg.repositoryExists(img.registry, img.name)
        || (0 < i && plan[i - 1] == CreateRepository(img.registry, img.name)))
  }

  /** Each image's push is preceded, in the plan, by the creation of its
      repository when that repository is missing. */
  lemma {:induction false} CreateBeforePush(reg: Registry, images: seq<Image>, k: nat)
    requires k < |images|
    ensures exists i :: PushedAfterCreate(reg, Plan(reg, images), images[k], i)
    decreases k
  {
    var plan := Plan(reg, images);
    var head := ImagePlan(reg, images[0]);
    var tail := Plan(reg, images[1..]);
    assert plan == head + tail;
    if k == 0 {
      var i := |head| - 1;
      assert plan[i] == head[i];
      if !reg.repositoryExists(images[0].registry, images[0].name) {
        assert plan[i - 1] == head[0];
      }
      assert PushedAfterCreate(reg, plan, images[0], i);
    } else {
      CreateBeforePush(reg, images[1..], k - 1);
      var i :| PushedAfterCreate(reg, tail, images[1..][k - 1], i);
      assert images[1..][k - 1] == images[k];
      assert plan[|head| + i] == tail[i];
      if 0 < i {
        assert plan[|head| + i - 1] == tail[i - 1];
      }
      assert PushedAfterCreate(reg, plan, images[k], |head| + i);
    }
  }
}
