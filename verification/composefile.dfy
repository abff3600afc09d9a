/** The compose-file edits of `receiver/model/compose_file.go`: build
    arguments and environment variables injected into the `web` service.
    Port rewriting is shared with the older revision (module `ComposeYaml`). */
module ComposeFile {
  import opened ComposeYaml
  import opened KeyValueText

  /** `transformBuildToMap` followed by the `.(map)` assertion of
      `buildArgs`: a mapping stays, a string `s` becomes `{context: s}`, and
      anything else is left alone and then fails the assertion. */
  function BuildMap(build: Value): Run<Fields>
  {
    match build
    case Map(fields) => Returned(fields)
    case Str(context) => Returned(map["context" := Str(context)])
    case _ => Panicked
  }

  /** The `args` list of a build mapping, nil reading as empty, each item
      asserted to be a string. */
  function BuildArgList(build: Fields): Run<seq<string>>
  {
    OptionalStrings(Field(build, "args"))
  }

  /** `InjectBuildArgs`: the `web` service's build arguments merged with
      `args`, injected keys winning. Nothing happens for a file that is not
      version 2, for no arguments, or when `web` has no `build`: the edit
      never creates a build section. */
  function InjectBuildArgs(doc: Fields, args: map<string, string>): (r: Run<Fields>)
    ensures !IsVersion2(doc) || |args| == 0 ==> r == Returned(doc)
    ensures IsVersion2(doc) && |args| > 0 && Service(doc, "web").Returned? && Field(Service(doc, "web").value, "build").Null?
      ==> r == Returned(doc)
    ensures IsVersion2(doc) && |args| > 0 && Service(doc, "web").Panicked? ==> r.Panicked?
    ensures IsVersion2(doc) && |args| > 0 && Service(doc, "web").Returned?
            && !Field(Service(doc, "web").value, "build").Null?
      ==> (r.Returned? <==> BuildMap(Service(doc, "web").value["build"]).Returned?
                            && BuildArgList(BuildMap(Service(doc, "web").value["build"]).value).Returned?)
  {
    if !IsVersion2(doc) || |args| == 0 then Returned(doc)
    else
      match Service(doc, "web")
      case Panicked => Panicked
      case Returned(web) =>
        if Field(web, "build").Null? then Returned(doc)
        else
          match BuildMap(web["build"])
          case Panicked => Panicked
          case Returned(build) =>
            match BuildArgList(build)
            case Panicked => Panicked
            case Returned(current) =>
              var build' := build["args" := StrList(Inject(current, true, args))];
              Returned(WithService(doc, "web", web["build" := Map(build')]))
  }

  /** The case in which `InjectBuildArgs` edits the file: a version 2 file,
      some arguments, and a `web` service with a `build`. */
  predicate InjectsBuild(doc: Fields, args: map<string, string>)
  {
    IsVersion2(doc) && |args| > 0 && Service(doc, "web").Returned?
    && !Field(Service(doc, "web").value, "build").Null?
  }

  /** `after` is `before` with only the `web` build edited: the build, as a
      mapping, keeps every entry (a string build its context) and its `args`
      are the current ones merged with `args`. */
  predicate BuildArgsInjected(before: Fields, after: Fields, args: map<string, string>)
  {
    ServicesOnlyAt(before, after, "web")
    && Service(before, "web").Returned? && Service(after, "web").Returned?
    && var web, web' := Service(before, "web").value, Service(after, "web").value;
       "build" in web && "build" in web' && web' == web["build" := web'["build"]]
       && BuildMap(web["build"]).Returned? && BuildArgList(BuildMap(web["build"]).value).Returned?
       && web'["build"].Map?
       && var build, build' := BuildMap(web["build"]).value, web'["build"].fields;
          (web["build"].Str? ==> "context" in build' && build'["context"] == web["build"])
          && "args" in build' && build' == build["args" := build'["args"]]
          && build'["args"].List?
          && Strings(build'["args"].items) == Returned(Inject(BuildArgList(build).value, true, args))
  }

  /** An edit that applies, and does not panic, changes only the `web`
      build, as described above. */
  lemma InjectBuildArgsEffect(doc: Fields, args: map<string, string>)
    requires InjectsBuild(doc, args) && InjectBuildArgs(doc, args).Returned?
    ensures BuildArgsInjected(doc, InjectBuildArgs(doc, args).value, args)
  {
    var web := Service(doc, "web").value;
    var build := BuildMap(web["build"]).value;
    var current := BuildArgList(build).value;
    var build' := build["args" := StrList(Inject(current, true, args))];
    assert Strings(build'["args"].items) == Returned(Inject(current, true, args));
  }

  /** Reading the injected build arguments back gives the current arguments with
      `args` written over them, one entry per key. */
  lemma InjectBuildArgsReadBack(doc: Fields, args: map<string, string>)
    requires forall k | k in args :: '=' !in k
    requires InjectsBuild(doc, args) && InjectBuildArgs(doc, args).Returned?
    ensures BuildArgsInjected(doc, InjectBuildArgs(doc, args).value, args)
    ensures var web := Service(doc, "web").value;
      var current := BuildArgList(BuildMap(web["build"]).value).value;
      var build' := Service(InjectBuildArgs(doc, args).value, "web").value["build"].fields;
      var written := Strings(build'["args"].items).value;
      Assignments(written, true) == Assignments(current, true) + args
      && forall i, j | 0 <= i < j < |written| :: EntryKey(written[i]) != EntryKey(written[j])
  {
    InjectBuildArgsEffect(doc, args);
    var web := Service(doc, "web").value;
    var current := BuildArgList(BuildMap(web["build"]).value).value;
    InjectReadBack(current, true, args, true);
  }

  // ------------------------------------------------------------ environment

  /** The `environment` list of a service, nil reading as empty, each item
      asserted to be a string. */
  function EnvironmentList(service: Fields): Run<seq<string>>
  {
    OptionalStrings(Field(service, "environment"))
  }

  /** `InjectEnvironmentVariables`: the `web` service's environment merged
      with `env`, injected keys winning, the list created when absent. No
      variables leave the file as it is. */
  function InjectEnvironmentVariables(doc: Fields, env: map<string, string>): (r: Run<Fields>)
    ensures |env| == 0 ==> r == Returned(doc)
    ensures |env| > 0 ==>
      (r.Returned? <==> Service(doc, "web").Returned? && EnvironmentList(Service(doc, "web").value).Returned?)
    ensures |env| > 0 && r.Returned? ==> EnvironmentInjected(doc, r.value, env)
  {
    if |env| == 0 then Returned(doc)
    else
      match Service(doc, "web")
      case Panicked => Panicked
      case Returned(web) =>
        match EnvironmentList(web)
        case Panicked => Panicked
        case Returned(current) =>
          Returned(WithService(doc, "web", web["environment" := StrList(Inject(current, true, env))]))
  }

  /** `after` is `before` with only the `web` environment replaced by the
      current one merged with `env`. */
  predicate EnvironmentInjected(before: Fields, after: Fields, env: map<string, string>)
  {
    ServicesOnlyAt(before, after, "web")
    && Service(before, "web").Returned? && Service(after, "web").Returned?
    && var web, web' := Service(before, "web").value, Service(after, "web").value;
       EnvironmentList(web).Returned?
       && "environment" in web' && web' == web["environment" := web'["environment"]]
       && web'["environment"].List?
       && Strings(web'["environment"].items) == Returned(Inject(EnvironmentList(web).value, true, env))
  }

  /** Reading the injected environment back gives the current variables with
      `env` written over them, one entry per key. */
  lemma InjectEnvironmentReadBack(doc: Fields, env: map<string, string>)
    requires forall k | k in env :: '=' !in k
    requires |env| > 0 && InjectEnvironmentVariables(doc, env).Returned?
    ensures var current := EnvironmentList(Service(doc, "web").value).value;
      var written := EnvironmentList(Service(InjectEnvironmentVariables(doc, env).value, "web").value).value;
      Assignments(written, true) == Assignments(current, true) + env
      && forall i, j | 0 <= i < j < |written| :: EntryKey(written[i]) != EntryKey(written[j])
  {
    var current := EnvironmentList(Service(doc, "web").value).value;
    InjectReadBack(current, true, env, true);
  }

  /** A bare variable `K` in the environment, not overridden later and not
      injected, comes out as `K=` after any non-empty injection. */
  lemma BareVariableGetsEquals(doc: Fields, env: map<string, string>, i: nat)
    requires |env| > 0 && InjectEnvironmentVariables(doc, env).Returned?
    requires var current := EnvironmentList(Service(doc, "web").value).value;
      i < |current| && '=' !in current[i] && current[i] !in env
      && forall j | i < j < |current| :: EntryKey(current[j]) != current[i]
    ensures var current := EnvironmentList(Service(doc, "web").value).value;
      current[i] + "=" in EnvironmentList(Service(InjectEnvironmentVariables(doc, env).value, "web").value).value
  {
    var current := EnvironmentList(Service(doc, "web").value).value;
    BareEntryWritten(current, i, env);
  }
}

/** The environment edit of the older `receiver/compose_file.go`. Its
    `environment` helper asserts the field to be a list without a nil check,
    and `InjectEnvironmentVariables` has no guard for an empty map. */
module LegacyComposeFile {
  import opened ComposeYaml
  import opened KeyValueText

  /** The `environment` list, asserted to be a list: absent or nil panics. */
  function EnvironmentList(service: Fields): (r: Run<seq<string>>)
    ensures r.Returned? ==> "environment" in service && service["environment"].List?
  {
    match Field(service, "environment")
    case List(items) => Strings(items)
    case _ => Panicked
  }

  /** `InjectEnvironmentVariables`: the `web` environment merged with `env`
      and written back, even when `env` is empty. */
  function InjectEnvironmentVariables(doc: Fields, env: map<string, string>): (r: Run<Fields>)
    ensures r.Returned? <==> Service(doc, "web").Returned? && EnvironmentList(Service(doc, "web").value).Returned?
  {
    match Service(doc, "web")
    case Panicked => Panicked
    case Returned(web) =>
      match EnvironmentList(web)
      case Panicked => Panicked
      case Returned(current) =>
        Returned(WithService(doc, "web", web["environment" := StrList(Inject(current, true, env))]))
  }

  /** The edit touches only the `web` environment, which it replaces by the
      current one merged with `env`. */
  lemma InjectEnvironmentEffect(doc: Fields, env: map<string, string>)
    requires InjectEnvironmentVariables(doc, env).Returned?
    ensures var r := InjectEnvironmentVariables(doc, env).value;
      ServicesOnlyAt(doc, r, "web")
      && var web, web' := Service(doc, "web").value, Service(r, "web").value;
         "environment" in web && web' == web["environment" := web'["environment"]]
         && EnvironmentList(web') == Returned(Inject(EnvironmentList(web).value, true, env))
  {
    var web := Service(doc, "web").value;
    var current := EnvironmentList(web).value;
    var web' := web["environment" := StrList(Inject(current, true, env))];
    assert EnvironmentList(web') == Returned(Inject(current, true, env));
  }

  /** A `web` service without an environment list makes the edit panic, even
      with nothing to inject. */
  lemma NoEnvironmentPanics(doc: Fields, env: map<string, string>)
    requires Service(doc, "web").Returned? && "environment" !in Service(doc, "web").value
    ensures InjectEnvironmentVariables(doc, env).Panicked?
  {
  }

  /** Reading the edited environment back gives the current variables with
      `env` written over them, one entry per key. */
  lemma InjectEnvironmentReadBack(doc: Fields, env: map<string, string>)
    requires forall k | k in env :: '=' !in k
    requires InjectEnvironmentVariables(doc, env).Returned?
    ensures var r := InjectEnvironmentVariables(doc, env).value;
      Service(doc, "web").Returned? && EnvironmentList(Service(doc, "web").value).Returned?
      && Service(r, "web").Returned? && EnvironmentList(Service(r, "web").value).Returned?
      && var current, written := EnvironmentList(Service(doc, "web").value).value, EnvironmentList(Service(r, "web").value).value;
         Assignments(written, true) == Assignments(current, true) + env
         && forall i, j | 0 <= i < j < |written| :: EntryKey(written[i]) != EntryKey(written[j])
  {
    InjectEnvironmentEffect(doc, env);
    var current := EnvironmentList(Service(doc, "web").value).value;
    InjectReadBack(current, true, env, true);
  }
}
